/**
 * raster.c: a width-by-height colour buffer stored row by row (cell
 * width * y + x), a bounds-checked pixel write and Bresenham's line algorithm.
 * C `int` arithmetic is modelled by unbounded integers.
 */
module Rasters {
  import opened Wrappers
  import opened Colours

  function Abs(n: int): nat
  {
    if n < 0 then -n else n
  }

  function Max(a: int, b: int): int
  {
    if a > b then a else b
  }

  /** A cell inside the raster has an index inside the buffer. */
  lemma CellIndex(width: int, height: int, x: int, y: int)
    requires 0 <= x < width && 0 <= y < height
    ensures 0 <= width * y + x < width * height
  {
    assert width * y >= 0;
    assert width * y + width == width * (y + 1);
    assert width * (y + 1) <= width * height;
  }

  /** Whether (x, y) is a pixel of a width-by-height raster. */
  predicate OnRaster(width: int, height: int, x: int, y: int)
  {
    0 <= x < width && 0 <= y < height
  }

  /** Which bound raster_pixel tests y against: the width, as written, or the height. */
  datatype Guard = AsWritten | Corrected

  /** Whether a pixel write under guard g lets (x, y) through. */
  predicate Accepts(g: Guard, width: int, height: int, x: int, y: int)
  {
    match g
    case AsWritten => CellAsWritten(width, x, y).Some?
    case Corrected => OnRaster(width, height, x, y)
  }

  /**
   * The buffer after writing colour c at each of the points in turn, with the
   * points the guard rejects dropped. The guard as written is only followed
   * where it stays inside the buffer, on rasters at least as tall as wide.
   */
  function Painted(cells: seq<Colour>, width: int, height: int, g: Guard, points: seq<(int, int)>, c: Colour): (r: seq<Colour>)
    requires 0 <= width && 0 <= height && |cells| == width * height
    requires g == AsWritten ==> width <= height
    ensures |r| == |cells|
    decreases |points|
  {
    if points == [] then cells
    else
      var before := Painted(cells, width, height, g, points[..|points| - 1], c);
      var p := points[|points| - 1];
      if Accepts(g, width, height, p.0, p.1) then
        CellIndex(width, height, p.0, p.1);
        before[width * p.1 + p.0 := c]
      else before
  }

  /** A cell is painted exactly when one of the points the guard lets through lands on it. */
  lemma {:induction false} PaintedCell(cells: seq<Colour>, width: int, height: int, g: Guard, points: seq<(int, int)>, c: Colour, k: int)
    requires 0 <= width && 0 <= height && |cells| == width * height && 0 <= k < |cells|
    requires g == AsWritten ==> width <= height
    ensures Painted(cells, width, height, g, points, c)[k] ==
      if exists p | p in points :: Accepts(g, width, height, p.0, p.1) && width * p.1 + p.0 == k then c else cells[k]
    decreases |points|
  {
    if points != [] {
      var init := points[..|points| - 1];
      var p := points[|points| - 1];
      PaintedCell(cells, width, height, g, init, c, k);
      assert points == init + [p];
      if exists q | q in init :: Accepts(g, width, height, q.0, q.1) && width * q.1 + q.0 == k {
        var q :| q in init && Accepts(g, width, height, q.0, q.1) && width * q.1 + q.0 == k;
        assert q in points;
      }
    }
  }

  /**
   * Under the guard as written, the rows from `width` down are never painted,
   * whatever the points: on a 1-by-3 raster only the top cell can change.
   */
  lemma AsWrittenMissesLowerRows(cells: seq<Colour>, width: int, height: int, points: seq<(int, int)>, c: Colour, k: int)
    requires 0 <= width <= height && |cells| == width * height && width * width <= k < |cells|
    ensures Painted(cells, width, height, AsWritten, points, c)[k] == cells[k]
  {
    PaintedCell(cells, width, height, AsWritten, points, c, k);
    forall p | p in points && Accepts(AsWritten, width, height, p.0, p.1)
      ensures width * p.1 + p.0 < width * width
    {
      CellIndex(width, width, p.0, p.1);
    }
  }

  /**
   * The cell raster_pixel writes, as written: the guard compares y with the
   * width, not the height. None when the guard rejects the point.
   */
  function CellAsWritten(width: int, x: int, y: int): (r: Option<int>)
    ensures r.Some? <==> 0 <= x < width && 0 <= y < width
    ensures r.Some? ==> r.value == width * y + x
  {
    if x < 0 || x >= width || y < 0 || y >= width then None else Some(width * y + x)
  }

  /** A 2-by-1 raster: the guard as written lets (0, 1) through to cell 2, one past the buffer. */
  lemma CellAsWrittenOverruns()
    ensures CellAsWritten(2, 0, 1) == Some(2) && 2 >= 2 * 1
    ensures !OnRaster(2, 1, 0, 1)
  {
  }

  /** The guard as written is safe only when the raster is at least as tall as it is wide. */
  lemma CellAsWrittenSafeWhenTall(width: int, height: int, x: int, y: int)
    requires width <= height
    ensures CellAsWritten(width, x, y).Some? ==> 0 <= CellAsWritten(width, x, y).value < width * height
    ensures width == height ==> (CellAsWritten(width, x, y).Some? <==> OnRaster(width, height, x, y))
  {
    if CellAsWritten(width, x, y).Some? {
      CellIndex(width, height, x, y);
    }
  }

  /** Raster: a colour buffer and a depth buffer of width * height cells each. */
  class Raster {
    const width: int
    const height: int
    const buffer: array<Colour>
    const zbuffer: array<real>

    predicate Valid()
    {
      0 <= width && 0 <= height && buffer.Length == width * height && zbuffer.Length == width * height
    }

    /** raster_new: records the size and allocates zeroed buffers (calloc). */
    constructor (width: int, height: int)
      requires 0 <= width && 0 <= height
      ensures this.width == width && this.height == height && Valid()
      ensures fresh(buffer) && fresh(zbuffer)
      ensures forall k | 0 <= k < buffer.Length :: buffer[k] == Blank
      ensures forall k | 0 <= k < zbuffer.Length :: zbuffer[k] == 0.0
    {
      this.width := width;
      this.height := height;
      buffer := new Colour[width * height](_ => Blank);
      zbuffer := new real[width * height](_ => 0.0);
    }

    /**
     * raster_pixel with the guard comparing y against the height: writes cell
     * width * y + x and returns true when (x, y) is on the raster, and otherwise
     * writes nothing and returns false.
     */
    method Pixel(x: int, y: int, c: Colour) returns (ok: bool)
      requires Valid()
      modifies buffer
      ensures ok <==> OnRaster(width, height, x, y)
      ensures buffer[..] == Painted(old(buffer[..]), width, height, Corrected, [(x, y)], c)
    {
      assert [(x, y)][..0] == [];
      if x < 0 || x >= width || y < 0 || y >= height {
        return false;
      }
      CellIndex(width, height, x, y);
      buffer[width * y + x] := c;
      assert buffer[..] == old(buffer[..])[width * y + x := c];
      return true;
    }

    /**
     * raster_pixel as written: the guard tests y against the width. Followed
     * only on a raster at least as tall as wide, where the write stays inside
     * the buffer.
     */
    method PixelAsWritten(x: int, y: int, c: Colour) returns (ok: bool)
      requires Valid() && width <= height
      modifies buffer
      ensures ok <==> 0 <= x < width && 0 <= y < width
      ensures buffer[..] == Painted(old(buffer[..]), width, height, AsWritten, [(x, y)], c)
    {
      assert [(x, y)][..0] == [];
      if x < 0 || x >= width || y < 0 || y >= width {
        return false;
      }
      CellIndex(width, height, x, y);
      buffer[width * y + x] := c;
      assert buffer[..] == old(buffer[..])[width * y + x := c];
      return true;
    }

    /**
     * raster_line: Bresenham's line from (x0, y0) to (x1, y1) in red, with the
     * step test `error >= 0` and each point written through raster_pixel as
     * written.
     */
    method Line(x0: int, y0: int, x1: int, y1: int)
      requires Valid() && width <= height
      modifies buffer
      ensures buffer[..] == Painted(old(buffer[..]), width, height, AsWritten, LinePoints(x0, y0, x1, y1, false), Red)
    {
      var l := Normalise(x0, y0, x1, y1);
      Trace(l, false, AsWritten);
    }

    /** raster_line with the step test `error > 0`, through the corrected raster_pixel. */
    method LineFixed(x0: int, y0: int, x1: int, y1: int)
      requires Valid()
      modifies buffer
      ensures buffer[..] == Painted(old(buffer[..]), width, height, Corrected, LinePoints(x0, y0, x1, y1, true), Red)
    {
      var l := Normalise(x0, y0, x1, y1);
      Trace(l, true, Corrected);
    }

    /** The loop of raster_line over a normalised line, writing through the pixel guard g. */
    method Trace(l: Segment, strict: bool, g: Guard)
      requires Valid() && l.x0 <= l.x1
      requires g == AsWritten ==> width <= height
      modifies buffer
      ensures buffer[..] == Painted(old(buffer[..]), width, height, g, Points(l.steep, l.x0, Rows(l, strict)), Red)
    {
      var deltax := l.x1 - l.x0;
      var deltay := Abs(l.y1 - l.y0);
      var error := -(deltax / 2);
      var y := l.y0;
      var x := l.x0;
      ghost var done: seq<int> := [];
      ghost var start := buffer[..];
      while x <= l.x1
        invariant l.x0 <= x <= l.x1 + 1 && Tracing(l, strict, x, y, error, done)
        invariant buffer[..] == Painted(start, width, height, g, Points(l.steep, l.x0, done), Red)
        decreases l.x1 - x
      {
        Plot(start, g, l.steep, l.x0, done, x, y);
        TracingStep(l, strict, x, y, error, done);
        done := done + [y];
        y, error := NextRow(y, error, deltax, deltay, l.y0 < l.y1, strict);
        x := x + 1;
      }
      TracingDone(l, strict, x, y, error, done);
    }

    /** One pixel of the line loop: the next point goes through the pixel write of guard g. */
    method Plot(ghost start: seq<Colour>, g: Guard, steep: bool, x0: int, ghost done: seq<int>, x: int, y: int)
      requires Valid() && |start| == width * height && x == x0 + |done|
      requires g == AsWritten ==> width <= height
      requires buffer[..] == Painted(start, width, height, g, Points(steep, x0, done), Red)
      modifies buffer
      ensures buffer[..] == Painted(start, width, height, g, Points(steep, x0, done + [y]), Red)
    {
      var p := if steep then (y, x) else (x, y);
      if g == AsWritten {
        var _ := PixelAsWritten(p.0, p.1, Red);
      } else {
        var _ := Pixel(p.0, p.1, Red);
      }
      PointsStep(steep, x0, done, y);
      var ps := Points(steep, x0, done + [y]);
      assert ps[..|ps| - 1] == Points(steep, x0, done);
    }

  }

  /**
   * A line after raster_line's normalisation: for a steep line x and y are
   * swapped, then the ends are ordered left to right.
   */
  datatype Segment = Segment(steep: bool, x0: int, y0: int, x1: int, y1: int)

  /** A point of the normalised line back in raster coordinates. */
  function Unswap(steep: bool, x: int, y: int): (int, int)
  {
    if steep then (y, x) else (x, y)
  }

  function Normalised(x0: int, y0: int, x1: int, y1: int): (l: Segment)
    ensures l.x0 <= l.x1 && Abs(l.y1 - l.y0) <= l.x1 - l.x0
    ensures l.steep <==> Abs(y1 - y0) > Abs(x1 - x0)
    ensures l.x1 - l.x0 == Max(Abs(x1 - x0), Abs(y1 - y0))
    ensures (Unswap(l.steep, l.x0, l.y0) == (x0, y0) && Unswap(l.steep, l.x1, l.y1) == (x1, y1)) ||
            (Unswap(l.steep, l.x0, l.y0) == (x1, y1) && Unswap(l.steep, l.x1, l.y1) == (x0, y0))
  {
    var steep := Abs(y1 - y0) > Abs(x1 - x0);
    var (a0, b0, a1, b1) := if steep then (y0, x0, y1, x1) else (x0, y0, x1, y1);
    if a0 > a1 then Segment(steep, a1, b1, a0, b0) else Segment(steep, a0, b0, a1, b1)
  }

  /** The swaps at the start of raster_line: a steep line trades x for y, then the ends are put left to right. */
  method Normalise(x0: int, y0: int, x1: int, y1: int) returns (l: Segment)
    ensures l == Normalised(x0, y0, x1, y1)
  {
    var ax0, ay0, ax1, ay1 := x0, y0, x1, y1;
    var steep := false;
    if Abs(ay1 - ay0) > Abs(ax1 - ax0) {
      steep := true;
      ax0, ay0 := ay0, ax0;
      ax1, ay1 := ay1, ax1;
    }
    if ax0 > ax1 {
      ax0, ax1 := ax1, ax0;
      ay0, ay1 := ay1, ay0;
    }
    l := Segment(steep, ax0, ay0, ax1, ay1);
  }

  /**
   * The y of each pixel from column x to column x1, starting at y with the given
   * error; a step is taken when the error reaches 0 (`>=`) or passes it
   * (`>`, when strict), in the direction fixed by `up`.
   */
  function Ys(x: int, x1: int, y: int, error: int, deltax: int, deltay: int, up: bool, strict: bool): seq<int>
    decreases x1 - x + 1
  {
    if x > x1 then []
    else
      var next := Advance(y, error, deltax, deltay, up, strict);
      [y] + Ys(x + 1, x1, next.0, next.1, deltax, deltay, up, strict)
  }

  /**
   * The row and error for the next column: the error grows by deltay, and a
   * step of the row in the fixed direction pays deltax back.
   */
  function Advance(y: int, error: int, deltax: int, deltay: int, up: bool, strict: bool): (int, int)
  {
    var e := error + deltay;
    if (if strict then e > 0 else e >= 0) then (if up then y + 1 else y - 1, e - deltax) else (y, e)
  }

  /** The end of raster_line's loop body: the error update and the row step. */
  method NextRow(y: int, error: int, deltax: int, deltay: int, up: bool, strict: bool) returns (y': int, error': int)
    ensures (y', error') == Advance(y, error, deltax, deltay, up, strict)
  {
    y', error' := y, error + deltay;
    if (if strict then error' > 0 else error' >= 0) {
      if up {
        y' := y' + 1;
      } else {
        y' := y' - 1;
      }
      error' := error' - deltax;
    }
  }

  /** The rows the pixels of a normalised line fall in, column by column. */
  function Rows(l: Segment, strict: bool): seq<int>
  {
    Ys(l.x0, l.x1, l.y0, -((l.x1 - l.x0) / 2), l.x1 - l.x0, Abs(l.y1 - l.y0), l.y0 < l.y1, strict)
  }

  /**
   * The state of raster_line's loop at column x: the rows done so far followed
   * by the rows still to come make up the whole line.
   */
  predicate Tracing(l: Segment, strict: bool, x: int, y: int, error: int, done: seq<int>)
  {
    |done| == x - l.x0 &&
    Rows(l, strict) == done + Ys(x, l.x1, y, error, l.x1 - l.x0, Abs(l.y1 - l.y0), l.y0 < l.y1, strict)
  }

  lemma TracingStep(l: Segment, strict: bool, x: int, y: int, error: int, done: seq<int>)
    requires x <= l.x1 && Tracing(l, strict, x, y, error, done)
    ensures var next := Advance(y, error, l.x1 - l.x0, Abs(l.y1 - l.y0), l.y0 < l.y1, strict);
      Tracing(l, strict, x + 1, next.0, next.1, done + [y])
  {
    var next := Advance(y, error, l.x1 - l.x0, Abs(l.y1 - l.y0), l.y0 < l.y1, strict);
    var rest := Ys(x + 1, l.x1, next.0, next.1, l.x1 - l.x0, Abs(l.y1 - l.y0), l.y0 < l.y1, strict);
    assert done + ([y] + rest) == (done + [y]) + rest;
  }

  lemma TracingDone(l: Segment, strict: bool, x: int, y: int, error: int, done: seq<int>)
    requires x > l.x1 && Tracing(l, strict, x, y, error, done)
    ensures done == Rows(l, strict)
  {
    assert done + [] == done;
  }

  /** The pixels for rows ys, starting at column x0, in raster coordinates. */
  function Points(steep: bool, x0: int, ys: seq<int>): (ps: seq<(int, int)>)
    ensures |ps| == |ys|
  {
    seq(|ys|, k requires 0 <= k < |ys| => Unswap(steep, x0 + k, ys[k]))
  }

  lemma PointsStep(steep: bool, x0: int, ys: seq<int>, y: int)
    ensures Points(steep, x0, ys + [y]) == Points(steep, x0, ys) + [Unswap(steep, x0 + |ys|, y)]
  {
  }

  /** The pixels raster_line hands to raster_pixel, in order. */
  function LinePoints(x0: int, y0: int, x1: int, y1: int, strict: bool): seq<(int, int)>
  {
    var l := Normalised(x0, y0, x1, y1);
    Points(l.steep, l.x0, Rows(l, strict))
  }

  /**
   * One row per column, starting at y, and from one column to the next the row
   * stays or moves one step in the fixed direction.
   */
  lemma {:induction false} YsShape(x: int, x1: int, y: int, error: int, deltax: int, deltay: int, up: bool, strict: bool)
    requires x <= x1 + 1
    ensures var ys := Ys(x, x1, y, error, deltax, deltay, up, strict);
      |ys| == x1 - x + 1 && (x <= x1 ==> ys[0] == y) &&
      forall k | 0 <= k < |ys| - 1 :: ys[k + 1] - ys[k] == 0 || ys[k + 1] - ys[k] == (if up then 1 else -1)
    decreases x1 - x + 1
  {
    if x <= x1 {
      var next := Advance(y, error, deltax, deltay, up, strict);
      YsShape(x + 1, x1, next.0, next.1, deltax, deltay, up, strict);
    }
  }

  /**
   * raster_line plots max(|x1 - x0|, |y1 - y0|) + 1 pixels, one per column of
   * the driving axis from left to right; the other coordinate starts at an end
   * point and moves by at most one pixel at a time, always the same way. For a
   * steep line the roles of x and y are swapped back.
   */
  lemma LineShape(x0: int, y0: int, x1: int, y1: int, strict: bool)
    ensures var ps := LinePoints(x0, y0, x1, y1, strict); var l := Normalised(x0, y0, x1, y1);
      |ps| == Max(Abs(x1 - x0), Abs(y1 - y0)) + 1 &&
      (ps[0] == (x0, y0) || ps[0] == (x1, y1)) &&
      (forall k | 0 <= k < |ps| :: ps[k] == Unswap(l.steep, l.x0 + k, Rows(l, strict)[k])) &&
      (forall k | 0 <= k < |ps| - 1 :: var d := Rows(l, strict)[k + 1] - Rows(l, strict)[k];
        d == 0 || d == (if l.y0 < l.y1 then 1 else -1))
  {
    var l := Normalised(x0, y0, x1, y1);
    YsShape(l.x0, l.x1, l.y0, -((l.x1 - l.x0) / 2), l.x1 - l.x0, Abs(l.y1 - l.y0), l.y0 < l.y1, strict);
  }

  /**
   * With the test as written, the two-pixel horizontal line from (0, 0) to
   * (1, 0) steps down before its second pixel and ends at (1, -1).
   */
  lemma LineAsWrittenLeaves()
    ensures LinePoints(0, 0, 1, 0, false) == [(0, 0), (1, -1)]
  {
    assert Normalised(0, 0, 1, 0) == Segment(false, 0, 0, 1, 0);
    assert Ys(2, 1, -1, -1, 1, 0, false, false) == [];
    assert Ys(1, 1, -1, 0, 1, 0, false, false) == [-1];
    assert Ys(0, 1, 0, 0, 1, 0, false, false) == [0, -1];
  }

  /**
   * With the strict test the error stays in (-deltax, 0], and the number of
   * steps t taken over the remaining columns is pinned by it.
   */
  lemma {:induction false} YsSteps(x: int, x1: int, y: int, error: int, deltax: int, deltay: int, up: bool)
    requires x <= x1 && 0 <= deltay <= deltax && -deltax < error <= 0
    ensures var ys := Ys(x, x1, y, error, deltax, deltay, up, true);
      var t := if up then ys[|ys| - 1] - y else y - ys[|ys| - 1];
      error + (x1 - x) * deltay <= t * deltax < error + (x1 - x) * deltay + deltax
    decreases x1 - x
  {
    var ys := Ys(x, x1, y, error, deltax, deltay, up, true);
    YsShape(x, x1, y, error, deltax, deltay, up, true);
    if x < x1 {
      var next := Advance(y, error, deltax, deltay, up, true);
      var rest := Ys(x + 1, x1, next.0, next.1, deltax, deltay, up, true);
      YsSteps(x + 1, x1, next.0, next.1, deltax, deltay, up);
      YsShape(x + 1, x1, next.0, next.1, deltax, deltay, up, true);
      assert ys == [y] + rest;
      assert ys[|ys| - 1] == rest[|rest| - 1];
      var t' := if up then rest[|rest| - 1] - next.0 else next.0 - rest[|rest| - 1];
      assert (x1 - x) * deltay == (x1 - (x + 1)) * deltay + deltay;
      if error + deltay > 0 {
        assert (t' + 1) * deltax == t' * deltax + deltax;
      }
    }
  }

  /** The only number t with d*D - D/2 <= t*D < d*D - D/2 + D is d. */
  lemma StepsPinned(t: int, d: int, deltax: int)
    requires deltax > 0
    requires -(deltax / 2) + deltax * d <= t * deltax < -(deltax / 2) + deltax * d + deltax
    ensures t == d
  {
    var h := deltax / 2;
    assert 0 <= h < deltax;
    assert t * deltax == deltax * d + (t - d) * deltax;
    assert deltax * d == t * deltax + (d - t) * deltax;
    if t > d {
      AtLeastOnce(t - d, deltax);
    } else if t < d {
      AtLeastOnce(d - t, deltax);
    }
  }

  /** n copies of a non-negative number, n >= 1, are at least one copy. */
  lemma AtLeastOnce(n: int, b: int)
    requires n >= 1 && b >= 0
    ensures n * b >= b
  {
    assert n * b - b == (n - 1) * b;
  }

  /** With the strict test, the last pixel of a line is its other end point. */
  lemma LineFixedEnds(x0: int, y0: int, x1: int, y1: int)
    ensures var ps := LinePoints(x0, y0, x1, y1, true);
      (ps[0] == (x0, y0) && ps[|ps| - 1] == (x1, y1)) || (ps[0] == (x1, y1) && ps[|ps| - 1] == (x0, y0))
  {
    var l := Normalised(x0, y0, x1, y1);
    StrictRowsEnd(l);
  }

  /** With the strict test the rows of a normalised segment run from y0 to y1. */
  lemma StrictRowsEnd(l: Segment)
    requires l.x0 <= l.x1 && Abs(l.y1 - l.y0) <= l.x1 - l.x0
    ensures var ys := Rows(l, true); |ys| == l.x1 - l.x0 + 1 && ys[0] == l.y0 && ys[|ys| - 1] == l.y1
  {
    var deltax, deltay := l.x1 - l.x0, Abs(l.y1 - l.y0);
    YsShape(l.x0, l.x1, l.y0, -(deltax / 2), deltax, deltay, l.y0 < l.y1, true);
    if deltax > 0 {
      StrictLastRow(l.x0, l.x1, l.y0, deltay, l.y0 < l.y1);
    }
  }

  /** Over deltax > 0 columns with the strict test, the rows move exactly deltay steps. */
  lemma StrictLastRow(x0: int, x1: int, y0: int, deltay: int, up: bool)
    requires x0 < x1 && 0 <= deltay <= x1 - x0
    ensures var ys := Ys(x0, x1, y0, -((x1 - x0) / 2), x1 - x0, deltay, up, true);
      |ys| == x1 - x0 + 1 && ys[|ys| - 1] == if up then y0 + deltay else y0 - deltay
  {
    var deltax := x1 - x0;
    var ys := Ys(x0, x1, y0, -(deltax / 2), deltax, deltay, up, true);
    YsShape(x0, x1, y0, -(deltax / 2), deltax, deltay, up, true);
    YsSteps(x0, x1, y0, -(deltax / 2), deltax, deltay, up);
    var t := if up then ys[|ys| - 1] - y0 else y0 - ys[|ys| - 1];
    assert (x1 - x0) * deltay == deltax * deltay;
    StepsPinned(t, deltay, deltax);
  }
}
