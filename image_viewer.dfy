// The drag-to-pan state of the image viewer's window procedure: the
// dragging flag, the last mouse point and the pan offsets of `g_viewer`.
// Zoom, the decoded image and painting are floating point and GDI work and
// are not part of this model.

module ImageViewer {

  /** A client-area point, as `GET_X_LPARAM`/`GET_Y_LPARAM` read it. */
  datatype Point = Point(x: int, y: int)

  /** The pan part of `ViewerState`. */
  datatype View = View(offsetX: int, offsetY: int, dragging: bool, lastMouse: Point)

  /** The mouse messages the window procedure handles. */
  datatype Mouse = ButtonDown(at: Point) | MouseMove(to: Point) | ButtonUp

  /** One mouse message applied to the view. */
  function Step(v: View, m: Mouse): (w: View)
    ensures m.ButtonDown? ==> w.dragging && w.lastMouse == m.at
    ensures m.ButtonUp? ==> !w.dragging && w.lastMouse == v.lastMouse
    ensures m.MouseMove? && !v.dragging ==> w == v
    ensures m.MouseMove? && v.dragging ==> w.dragging && w.lastMouse == m.to
    ensures !m.MouseMove? ==> w.offsetX == v.offsetX && w.offsetY == v.offsetY
  {
    match m
    case ButtonDown(p) => v.(dragging := true, lastMouse := p)
    case MouseMove(p) =>
      if v.dragging then
        View(v.offsetX + (p.x - v.lastMouse.x), v.offsetY + (p.y - v.lastMouse.y), true, p)
      else v
    case ButtonUp => v.(dragging := false)
  }

  /** A move while dragging shifts the image by exactly the distance the mouse travelled. */
  lemma {:induction false} MoveShifts(v: View, p: Point)
    requires v.dragging
    ensures Step(v, MouseMove(p)).offsetX - v.offsetX == p.x - v.lastMouse.x
    ensures Step(v, MouseMove(p)).offsetY - v.offsetY == p.y - v.lastMouse.y
  {
  }

  /** The view after the mouse moves through `moves[..n]`. */
  function Pan(v: View, moves: seq<Point>, n: nat): (w: View)
    requires n <= |moves|
    ensures w.dragging == v.dragging
    ensures !v.dragging ==> w == v
    decreases n
  {
    if n == 0 then v else Step(Pan(v, moves, n - 1), MouseMove(moves[n - 1]))
  }

  /**
   * Moving while dragging telescopes: the offsets grow by the distance from
   * the point the drag last saw to the last point moved to, whatever the
   * points in between.
   */
  lemma {:induction false} PanTelescopes(v: View, moves: seq<Point>, n: nat)
    requires v.dragging && 0 < n <= |moves|
    ensures Pan(v, moves, n).offsetX == v.offsetX + (moves[n - 1].x - v.lastMouse.x)
    ensures Pan(v, moves, n).offsetY == v.offsetY + (moves[n - 1].y - v.lastMouse.y)
    ensures Pan(v, moves, n).lastMouse == moves[n - 1]
  {
    if n > 1 {
      PanTelescopes(v, moves, n - 1);
    }
  }

  /** After button-down at `p0` and moves through `moves`, the offsets have grown by `last - p0`. */
  lemma {:induction false} DragFromDown(v: View, p0: Point, moves: seq<Point>)
    requires moves != []
    ensures Pan(Step(v, ButtonDown(p0)), moves, |moves|).offsetX == v.offsetX + (moves[|moves| - 1].x - p0.x)
    ensures Pan(Step(v, ButtonDown(p0)), moves, |moves|).offsetY == v.offsetY + (moves[|moves| - 1].y - p0.y)
  {
    PanTelescopes(Step(v, ButtonDown(p0)), moves, |moves|);
  }

  /** Moving back to where the drag started leaves the image where it was. */
  lemma {:induction false} DragRoundTrip(v: View, p0: Point, moves: seq<Point>)
    requires moves != [] && moves[|moves| - 1] == p0
    ensures Pan(Step(v, ButtonDown(p0)), moves, |moves|).offsetX == v.offsetX
    ensures Pan(Step(v, ButtonDown(p0)), moves, |moves|).offsetY == v.offsetY
  {
    DragFromDown(v, p0, moves);
  }

  /** A released button makes every later move a no-op until the next button-down. */
  lemma {:induction false} ReleasedPanIsIdle(v: View, moves: seq<Point>)
    ensures Pan(Step(v, ButtonUp), moves, |moves|) == Step(v, ButtonUp)
  {
  }

  /** `g_viewer`, without zoom and the image. */
  class Viewer {
    var offsetX: int
    var offsetY: int
    var dragging: bool
    var lastMouse: Point

    /** The field initialisers of `ViewerState`. */
    constructor ()
      ensures State() == View(0, 0, false, Point(0, 0))
    {
      offsetX, offsetY := 0, 0;
      dragging := false;
      lastMouse := Point(0, 0);
    }

    function State(): View
      reads this
    {
      View(offsetX, offsetY, dragging, lastMouse)
    }

    /** `WM_LBUTTONDOWN`: start dragging from the click point (mouse capture is the platform's). */
    method OnButtonDown(x: int, y: int)
      modifies this
      ensures State() == Step(old(State()), ButtonDown(Point(x, y)))
    {
      dragging := true;
      lastMouse := Point(x, lastMouse.y);
      lastMouse := Point(lastMouse.x, y);
    }

    /** `WM_MOUSEMOVE`; `repaint` says whether the window is invalidated. */
    method OnMouseMove(x: int, y: int) returns (repaint: bool)
      modifies this
      ensures State() == Step(old(State()), MouseMove(Point(x, y)))
      ensures repaint == old(dragging)
    {
      repaint := false;
      if dragging {
        offsetX := offsetX + (x - lastMouse.x);
        offsetY := offsetY + (y - lastMouse.y);
        lastMouse := Point(x, lastMouse.y);
        lastMouse := Point(lastMouse.x, y);
        repaint := true;
      }
    }

    /** `WM_LBUTTONUP`: stop dragging. */
    method OnButtonUp()
      modifies this
      ensures State() == Step(old(State()), ButtonUp)
    {
      dragging := false;
    }

    /**
     * The end of `LoadImageFile`: when the file dialog returns a file
     * (`picked`), the pan is reset; otherwise nothing changes.
     */
    method OnImageLoaded(picked: bool)
      modifies this
      ensures picked ==> offsetX == 0 && offsetY == 0
      ensures !picked ==> offsetX == old(offsetX) && offsetY == old(offsetY)
      ensures dragging == old(dragging) && lastMouse == old(lastMouse)
    {
      if picked {
        offsetX := 0;
        offsetY := 0;
      }
    }
  }
}
