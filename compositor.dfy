/** The canvas compositor of the graphics crate: display geometry, row-major
    cell indexing, and the batched blit that replaces unset cells by a
    background colour. */
module Compositor {
  import opened Common

  /** Fixed display geometry. */
  const SCREEN_WIDTH: nat := 128
  const SCREEN_HEIGHT: nat := 160
  const IMAGE_WIDTH: nat := 114
  /** Title line (14 px) plus artist line (13 px). */
  const TEXT_HEIGHT: nat := 14 + 13
  /** Vertical extent of album art and text; the progress bar lies below. */
  const CURRENT_TRACK_HEIGHT: nat := IMAGE_WIDTH + 14 + 13

  /** A colour as handed to `Rgb565::new`. */
  datatype Rgb565 = Rgb565(r: nat, g: nat, b: nat)

  datatype Point = Point(x: int, y: int)
  datatype Size = Size(width: nat, height: nat)

  datatype Rectangle = Rectangle(topLeft: Point, size: Size) {
    predicate Contains(p: Point) {
      && topLeft.x <= p.x < topLeft.x + size.width
      && topLeft.y <= p.y < topLeft.y + size.height
    }
  }

  /** The regions each redraw covers. */
  const ALBUM_AREA: Rectangle := Rectangle(Point(0, 0), Size(SCREEN_WIDTH, IMAGE_WIDTH))
  const TEXT_AREA: Rectangle := Rectangle(Point(0, IMAGE_WIDTH), Size(SCREEN_WIDTH - 4, TEXT_HEIGHT))
  const PROGRESS_AREA: Rectangle :=
    Rectangle(Point(0, CURRENT_TRACK_HEIGHT), Size(SCREEN_WIDTH, SCREEN_HEIGHT - CURRENT_TRACK_HEIGHT))
  const SCREEN_AREA: Rectangle := Rectangle(Point(0, 0), Size(SCREEN_WIDTH, SCREEN_HEIGHT))

  /** Partial redraws never touch each other's pixels, and all lie on the screen. */
  lemma AreasDisjoint(p: Point)
    ensures ALBUM_AREA.Contains(p) ==> !TEXT_AREA.Contains(p) && !PROGRESS_AREA.Contains(p)
    ensures TEXT_AREA.Contains(p) ==> !PROGRESS_AREA.Contains(p)
    ensures ALBUM_AREA.Contains(p) || TEXT_AREA.Contains(p) || PROGRESS_AREA.Contains(p) ==> SCREEN_AREA.Contains(p)
  {
  }

  lemma MulMonotonic(a: nat, b: nat, w: nat)
    requires a <= b
    ensures a * w <= b * w
  {
  }

  /** A cell of a w-by-h grid has a row-major index below w * h. */
  lemma CellIndexBound(x: nat, y: nat, w: nat, h: nat)
    requires x < w && y < h
    ensures x + y * w < w * h
  {
    MulMonotonic(y + 1, h, w);
    assert (y + 1) * w == y * w + w;
  }

  /** Row and column of a row-major index. */
  lemma CellOfIndex(i: nat, w: nat, h: nat)
    requires i < w * h
    ensures w > 0 && i % w < w && i / w < h && i == i % w + (i / w) * w
  {
    if i / w >= h {
      MulMonotonic(h, i / w, w);
    }
  }

  /** Column and row recovered from a row-major index. */
  lemma IndexOfCell(x: nat, y: nat, w: nat)
    requires x < w
    ensures (x + y * w) % w == x && (x + y * w) / w == y
  {
    DivUnique(x + y * w, y, x, w);
  }

  /** The i-th point of `rect.points()`: rows from top to bottom, each row
      from left to right. */
  function PointAt(rect: Rectangle, i: nat): (p: Point)
    requires i < rect.size.width * rect.size.height
    ensures rect.Contains(p)
  {
    CellOfIndex(i, rect.size.width, rect.size.height);
    Point(rect.topLeft.x + i % rect.size.width, rect.topLeft.y + i / rect.size.width)
  }

  /** `point_to_index`: the row-major index of `point` in a grid of `size`
      whose top-left corner is at `topLeftOffset`, when the point lies in it. */
  function PointToIndex(size: Size, topLeftOffset: Point, point: Point): (r: Option<nat>)
    ensures r.Some? <==> Rectangle(topLeftOffset, size).Contains(point)
    ensures r.Some? ==> r.value < size.width * size.height
    ensures r.Some? ==> PointAt(Rectangle(topLeftOffset, size), r.value) == point
  {
    var dx, dy := point.x - topLeftOffset.x, point.y - topLeftOffset.y;
    // the conversion of the difference into a pair of u32 fails on a negative component
    if dx >= 0 && dy >= 0 && dx < size.width && dy < size.height then
      CellIndexBound(dx, dy, size.width, size.height);
      IndexOfCell(dx, dy, size.width);
      Some(dx + dy * size.width)
    else
      None
  }

  /** Enumerating the points of a rectangle and indexing them gives back the
      enumeration order: point i has index i. */
  lemma IndexOfPointAt(rect: Rectangle, i: nat)
    requires i < rect.size.width * rect.size.height
    ensures PointToIndex(rect.size, rect.topLeft, PointAt(rect, i)) == Some(i)
  {
    CellOfIndex(i, rect.size.width, rect.size.height);
  }

  /** An in-memory surface: `size.width * size.height` optional colours in
      row-major order; `None` is an unset (transparent) cell. */
  datatype Canvas<C> = Canvas(size: Size, pixels: seq<Option<C>>) {
    predicate Valid() {
      |pixels| == size.width * size.height
    }

    /** The cell in column x of row y. */
    function Pixel(x: nat, y: nat): Option<C>
      requires Valid() && x < size.width && y < size.height
    {
      CellIndexBound(x, y, size.width, size.height);
      pixels[x + y * size.width]
    }
  }

  /** `CanvasAt`: a canvas placed with its top-left corner at `topLeft`. */
  datatype CanvasAt<C> = CanvasAt(topLeft: Point, canvas: Canvas<C>) {
    function BoundingBox(): Rectangle {
      Rectangle(topLeft, canvas.size)
    }

    /** `get_pixel` in target coordinates; `None` outside or where unset. */
    function GetPixel(p: Point): Option<C>
      requires canvas.Valid()
    {
      match PointToIndex(canvas.size, topLeft, p)
      case Some(i) => canvas.pixels[i]
      case None => None
    }
  }

  /** One `fill_contiguous` call on the display: an area and exactly one colour
      per cell of it, in row-major order. */
  datatype Fill<C> = Fill(area: Rectangle, colors: seq<C>)

  /** `draw_canvas_with_background`: one batched write covering the canvas's
      bounding box, where every unset cell becomes `background`. */
  function DrawWithBackground<C>(canvas: CanvasAt<C>, background: C): (f: Fill<C>)
    requires canvas.canvas.Valid()
    ensures f.area == canvas.BoundingBox()
    ensures |f.colors| == f.area.size.width * f.area.size.height
    ensures forall i :: 0 <= i < |f.colors| ==> f.colors[i] == canvas.canvas.pixels[i].GetOr(background)
  {
    var box := canvas.BoundingBox();
    var n := box.size.width * box.size.height;
    var colors := seq(n, i requires 0 <= i < n => canvas.GetPixel(PointAt(box, i)).GetOr(background));
    assert forall i :: 0 <= i < n ==> colors[i] == canvas.canvas.pixels[i].GetOr(background) by {
      forall i | 0 <= i < n ensures colors[i] == canvas.canvas.pixels[i].GetOr(background) {
        IndexOfPointAt(box, i);
      }
    }
    Fill(box, colors)
  }

  /** The blit at cell (x, y) of the area: the canvas pixel if set, else the background. */
  lemma DrawWithBackgroundAt<C>(canvas: CanvasAt<C>, background: C, x: nat, y: nat)
    requires canvas.canvas.Valid() && x < canvas.canvas.size.width && y < canvas.canvas.size.height
    ensures var f := DrawWithBackground(canvas, background);
            && x + y * canvas.canvas.size.width < |f.colors|
            && f.colors[x + y * canvas.canvas.size.width] == canvas.canvas.Pixel(x, y).GetOr(background)
  {
    CellIndexBound(x, y, canvas.canvas.size.width, canvas.canvas.size.height);
  }
}
