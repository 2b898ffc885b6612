/**
 Straight lines (`drawLine`, src/modules/export/export.service.ts): the error-accumulating loop for all
 octants, proved to draw the rounded ideal line.
 */
module Lines {
  import opened Common
  import opened Raster

  /** The ideal minor offset `k * minor / major`, rounded to the nearest integer, halves down. */
  function Rounded(k: nat, major: int, minor: int): nat
    requires major >= 0 && minor >= 0
  {
    if major == 0 then 0 else (2 * k * minor + major - 1) / (2 * major)
  }

  /** The number of unit steps from one end of a line to the other. */
  function Steps(a: Point, b: Point): nat { Max(Abs(b.x - a.x), Abs(b.y - a.y)) }

  function Toward(from: int, to: int): int { if from < to then 1 else -1 }

  /** The pixel of the line from `a` to `b` that is `k` steps along its longer axis. */
  function LineAt(a: Point, b: Point, k: nat): Point {
    var dx, dy := Abs(b.x - a.x), Abs(b.y - a.y);
    if dx >= dy then Point(a.x + Toward(a.x, b.x) * k, a.y + Toward(a.y, b.y) * Rounded(k, dx, dy))
    else Point(a.x + Toward(a.x, b.x) * Rounded(k, dy, dx), a.y + Toward(a.y, b.y) * k)
  }

  ghost function Line(a: Point, b: Point, n: nat): iset<Point> {
    iset k | 0 <= k < n :: LineAt(a, b, k)
  }

  // ----- Rounding -----

  /** `Rounded` is within half a unit of the ideal offset, on the upper side only strictly. */
  lemma RoundedBounds(k: nat, major: int, minor: int)
    requires major > 0 && minor >= 0
    ensures -major <= 2 * (Rounded(k, major, minor) * major) - 2 * (k * minor) < major
  {
    var n := 2 * k * minor + major - 1;
    assert 2 * k * minor == 2 * (k * minor);
    assert n == (2 * major) * (n / (2 * major)) + n % (2 * major);
    assert (2 * major) * (n / (2 * major)) == 2 * (Rounded(k, major, minor) * major);
  }

  /** Those bounds determine it. */
  lemma RoundedUnique(k: nat, major: int, minor: int, r: int)
    requires major > 0 && minor >= 0
    requires -major <= 2 * (r * major) - 2 * (k * minor) < major
    ensures r == Rounded(k, major, minor)
  {
    var q := Rounded(k, major, minor);
    RoundedBounds(k, major, minor);
    assert (q + 1) * major == q * major + major && (r + 1) * major == r * major + major;
    CancelFactor(r, q + 1, major);
    CancelFactor(q, r + 1, major);
  }

  lemma RoundedEnds(major: int, minor: int)
    requires major >= 0 && minor >= 0
    ensures Rounded(0, major, minor) == 0
    ensures minor <= major ==> Rounded(major, major, minor) == minor
  {
    if major > 0 {
      RoundedUnique(0, major, minor, 0);
      assert minor * major == major * minor;
      RoundedUnique(major, major, minor, minor);
    }
  }

  /** One more step along the longer axis moves the rounded offset by one, exactly when the loop's test says so. */
  lemma RoundedStep(k: nat, major: int, minor: int)
    requires 0 < major && 0 <= minor <= major
    ensures Rounded(k + 1, major, minor) == Rounded(k, major, minor)
              + if 2 * (k * minor) + 2 * minor - 2 * (Rounded(k, major, minor) * major) > major then 1 else 0
  {
    var r := Rounded(k, major, minor);
    RoundedBounds(k, major, minor);
    assert (k + 1) * minor == k * minor + minor;
    if 2 * (k * minor) + 2 * minor - 2 * (r * major) > major {
      assert (r + 1) * major == r * major + major;
      RoundedUnique(k + 1, major, minor, r + 1);
    } else {
      RoundedUnique(k + 1, major, minor, r);
    }
  }

  lemma RoundedMonotone(j: nat, k: nat, major: int, minor: int)
    requires major >= 0 && minor >= 0 && j <= k
    ensures Rounded(j, major, minor) <= Rounded(k, major, minor)
  {
    if major > 0 {
      RoundedBounds(j, major, minor);
      RoundedBounds(k, major, minor);
      Multiply(j, k, minor);
      CloseProducts(Rounded(j, major, minor), Rounded(k, major, minor), major, j * minor, k * minor);
    }
  }

  lemma Multiply(j: int, k: int, m: int)
    requires j <= k && m >= 0
    ensures j * m <= k * m
  {
  }

  lemma CloseProducts(p: int, q: int, d: int, x: int, y: int)
    requires d > 0 && x <= y && 2 * (p * d) - 2 * x < d && -d <= 2 * (q * d) - 2 * y
    ensures p <= q
  {
    assert (q + 1) * d == q * d + d;
    CancelFactor(p, q + 1, d);
  }

  // ----- The line -----

  /** The line starts and ends at its endpoints. */
  lemma LineEnds(a: Point, b: Point)
    ensures LineAt(a, b, 0) == a && LineAt(a, b, Steps(a, b)) == b
  {
    var dx, dy := Abs(b.x - a.x), Abs(b.y - a.y);
    RoundedEnds(Max(dx, dy), Min(dx, dy));
  }

  lemma LineOffsets(a: Point, b: Point, k: nat)
    requires k <= Steps(a, b)
    ensures var dx, dy := Abs(b.x - a.x), Abs(b.y - a.y);
            var p := LineAt(a, b, k);
            exists i, j: nat :: i <= dx && j <= dy
              && p == Point(a.x + Toward(a.x, b.x) * i, a.y + Toward(a.y, b.y) * j)
  {
    var dx, dy := Abs(b.x - a.x), Abs(b.y - a.y);
    var major, minor := Max(dx, dy), Min(dx, dy);
    RoundedMonotone(k, major, major, minor);
    RoundedEnds(major, minor);
    var r := Rounded(k, major, minor);
    if dx >= dy {
      assert LineAt(a, b, k) == Point(a.x + Toward(a.x, b.x) * k, a.y + Toward(a.y, b.y) * r);
    } else {
      assert LineAt(a, b, k) == Point(a.x + Toward(a.x, b.x) * r, a.y + Toward(a.y, b.y) * k);
    }
  }

  /** No pixel leaves the box spanned by the endpoints. */
  lemma LineInBox(a: Point, b: Point, k: nat)
    requires k <= Steps(a, b)
    ensures Min(a.x, b.x) <= LineAt(a, b, k).x <= Max(a.x, b.x)
    ensures Min(a.y, b.y) <= LineAt(a, b, k).y <= Max(a.y, b.y)
  {
    LineOffsets(a, b, k);
  }

  /** Each pixel is within half a pixel of the ideal line, measured along the shorter axis. */
  lemma LineHalfPixel(a: Point, b: Point, k: nat)
    ensures var p := LineAt(a, b, k);
            2 * Abs((p.y - a.y) * (b.x - a.x) - (p.x - a.x) * (b.y - a.y)) <= Steps(a, b)
  {
    var dx, dy := Abs(b.x - a.x), Abs(b.y - a.y);
    var sx, sy := Toward(a.x, b.x), Toward(a.y, b.y);
    assert b.x - a.x == sx * dx && b.y - a.y == sy * dy;
    if Steps(a, b) > 0 {
      if dx >= dy {
        RoundedBounds(k, dx, dy);
        SignedCross(sx, sy, k, Rounded(k, dx, dy), dx, dy);
      } else {
        RoundedBounds(k, dy, dx);
        SignedCross(sx, sy, Rounded(k, dy, dx), k, dx, dy);
      }
    }
  }

  lemma SignedCross(sx: int, sy: int, i: int, j: int, dx: int, dy: int)
    requires (sx == 1 || sx == -1) && (sy == 1 || sy == -1)
    ensures Abs((sy * j) * (sx * dx) - (sx * i) * (sy * dy)) == Abs(j * dx - i * dy)
  {
    assert (sy * j) * (sx * dx) == (sx * sy) * (j * dx);
    assert (sx * i) * (sy * dy) == (sx * sy) * (i * dy);
  }

  /** Successive pixels touch, and no pixel is plotted twice: a line has exactly `Steps + 1` of them. */
  lemma LineConnectedAndDistinct(a: Point, b: Point, j: nat, k: nat)
    requires j < k <= Steps(a, b)
    ensures LineAt(a, b, j) != LineAt(a, b, k)
    ensures k == j + 1 ==>
              Abs(LineAt(a, b, k).x - LineAt(a, b, j).x) <= 1 && Abs(LineAt(a, b, k).y - LineAt(a, b, j).y) <= 1
  {
    var dx, dy := Abs(b.x - a.x), Abs(b.y - a.y);
    if k == j + 1 {
      RoundedStep(j, Max(dx, dy), Min(dx, dy));
    }
  }

  // ----- The loop -----

  /** `RoundedBounds` and `RoundedStep` in terms of the two products, which the loop keeps in its error. */
  lemma RoundedProducts(k: nat, major: int, minor: int, p: int, q: int)
    requires 0 <= minor <= major && k < major
    requires p == k * minor && q == Rounded(k, major, minor) * major
    ensures -major <= 2 * q - 2 * p < major && (major == minor ==> p == q)
    ensures Rounded(k + 1, major, minor)
            == Rounded(k, major, minor) + if 2 * p + 2 * minor - 2 * q > major then 1 else 0
  {
    RoundedBounds(k, major, minor);
    RoundedStep(k, major, minor);
    if major == minor {
      RoundedUnique(k, major, minor, k);
    }
  }

  /** What the loop's two tests do on a line that is at least as long along the first axis as along the second. */
  lemma MajorStep(major: int, minor: int, p: int, q: int, error: int)
    requires 0 <= minor <= major && -major <= 2 * q - 2 * p < major && (major == minor ==> p == q) && 0 < major
    requires error == major - minor - p + q
    ensures 2 * error > -minor
    ensures 2 * error < major <==> 2 * p + 2 * minor - 2 * q > major
  {
  }

  /** The mirrored statement, for a line that is longer along the second axis. */
  lemma MinorStep(major: int, minor: int, p: int, q: int, error: int)
    requires 0 <= minor < major && -major <= 2 * q - 2 * p < major
    requires error == minor - major - q + p
    ensures 2 * error < minor
    ensures 2 * error > -major <==> 2 * p + 2 * minor - 2 * q > major
  {
  }

  /** The loop is `k` steps along the line, having made `i` horizontal and `j` vertical steps. */
  ghost predicate AtStep(a: Point, b: Point, k: nat, i: int, j: int, x: int, y: int, error: int) {
    var dx, dy := Abs(b.x - a.x), Abs(b.y - a.y);
    && k <= Steps(a, b)
    && (if dx >= dy then i == k && j == Rounded(k, dx, dy) else j == k && i == Rounded(k, dy, dx))
    && x == a.x + Toward(a.x, b.x) * i
    && y == a.y + Toward(a.y, b.y) * j
    && error == dx - dy - i * dy + j * dx
  }

  lemma Distribute(s: int, n: int)
    ensures s * (n + 1) == s * n + s && (n + 1) * s == n * s + s
  {
  }

  lemma LoopStepMajor(dx: int, dy: int, k: nat, j: int, error: int)
    requires 0 <= dy <= dx && k < dx && j == Rounded(k, dx, dy) && error == dx - dy - k * dy + j * dx
    ensures var j' := if 2 * error < dx then j + 1 else j;
            && 2 * error > -dy && j' == Rounded(k + 1, dx, dy)
            && error - dy + (if 2 * error < dx then dx else 0) == dx - dy - (k + 1) * dy + j' * dx
  {
    RoundedProducts(k, dx, dy, k * dy, j * dx);
    MajorStep(dx, dy, k * dy, j * dx, error);
    Distribute(dy, k);
    Distribute(dx, j);
  }

  lemma LoopStepMinor(dx: int, dy: int, k: nat, i: int, error: int)
    requires 0 <= dx < dy && k < dy && i == Rounded(k, dy, dx) && error == dx - dy - i * dy + k * dx
    ensures var i' := if 2 * error > -dy then i + 1 else i;
            && 2 * error < dx && i' == Rounded(k + 1, dy, dx)
            && error - (if 2 * error > -dy then dy else 0) + dx == dx - dy - i' * dy + (k + 1) * dx
  {
    RoundedProducts(k, dy, dx, k * dx, i * dy);
    MinorStep(dy, dx, k * dx, i * dy, error);
    Distribute(dy, i);
    Distribute(dx, k);
  }

  lemma LoopStep(a: Point, b: Point, k: nat, i: int, j: int, x: int, y: int, error: int)
    requires AtStep(a, b, k, i, j, x, y, error) && k < Steps(a, b)
    ensures var dx, dy := Abs(b.x - a.x), Abs(b.y - a.y);
            var right, down := 2 * error > -dy, 2 * error < dx;
            AtStep(a, b, k + 1,
                   if right then i + 1 else i, if down then j + 1 else j,
                   if right then x + Toward(a.x, b.x) else x, if down then y + Toward(a.y, b.y) else y,
                   error - (if right then dy else 0) + (if down then dx else 0))
  {
    var dx, dy := Abs(b.x - a.x), Abs(b.y - a.y);
    Distribute(Toward(a.x, b.x), i);
    Distribute(Toward(a.y, b.y), j);
    if dx >= dy {
      LoopStepMajor(dx, dy, k, j, error);
    } else {
      LoopStepMinor(dx, dy, k, i, error);
    }
  }

  /** The loop's variables. */
  datatype Cursor = Cursor(x: int, y: int, error: int)

  function Start(a: Point, b: Point): Cursor {
    Cursor(a.x, a.y, Abs(b.x - a.x) - Abs(b.y - a.y))
  }

  /** One pass of the loop. */
  function Advance(a: Point, b: Point, c: Cursor): Cursor {
    var dx, dy := Abs(b.x - a.x), Abs(b.y - a.y);
    var right, down := 2 * c.error > -dy, 2 * c.error < dx;
    Cursor(if right then c.x + Toward(a.x, b.x) else c.x,
           if down then c.y + Toward(a.y, b.y) else c.y,
           c.error - (if right then dy else 0) + (if down then dx else 0))
  }

  function Iterate(a: Point, b: Point, k: nat): Cursor {
    if k == 0 then Start(a, b) else Advance(a, b, Iterate(a, b, k - 1))
  }

  lemma AtStart(a: Point, b: Point)
    ensures AtStep(a, b, 0, 0, 0, a.x, a.y, Start(a, b).error)
  {
    RoundedEnds(Max(Abs(b.x - a.x), Abs(b.y - a.y)), Min(Abs(b.x - a.x), Abs(b.y - a.y)));
  }

  lemma AtStepIsOnLine(a: Point, b: Point, k: nat, i: int, j: int, x: int, y: int, error: int)
    requires AtStep(a, b, k, i, j, x, y, error)
    ensures LineAt(a, b, k) == Point(x, y)
  {
  }

  lemma {:induction false} IterateAtStep(a: Point, b: Point, k: nat) returns (i: int, j: int)
    requires k <= Steps(a, b)
    ensures var c := Iterate(a, b, k); AtStep(a, b, k, i, j, c.x, c.y, c.error)
  {
    if k == 0 {
      i, j := 0, 0;
      AtStart(a, b);
    } else {
      var c := Iterate(a, b, k - 1);
      i, j := IterateAtStep(a, b, k - 1);
      LoopStep(a, b, k - 1, i, j, c.x, c.y, c.error);
      i := if 2 * c.error > -Abs(b.y - a.y) then i + 1 else i;
      j := if 2 * c.error < Abs(b.x - a.x) then j + 1 else j;
    }
  }

  /** The error-accumulating loop follows the rounded ideal line. */
  lemma IterateOnLine(a: Point, b: Point, k: nat)
    requires k <= Steps(a, b)
    ensures LineAt(a, b, k) == Point(Iterate(a, b, k).x, Iterate(a, b, k).y)
  {
    var i, j := IterateAtStep(a, b, k);
    AtStepIsOnLine(a, b, k, i, j, Iterate(a, b, k).x, Iterate(a, b, k).y, Iterate(a, b, k).error);
  }

  /** The loop meets its exit test exactly on pass `Steps`. */
  lemma ExitsAtTarget(a: Point, b: Point, k: nat)
    requires k <= Steps(a, b)
    ensures Point(Iterate(a, b, k).x, Iterate(a, b, k).y) == b <==> k == Steps(a, b)
  {
    IterateOnLine(a, b, k);
    LineEnds(a, b);
    if k < Steps(a, b) {
      LineConnectedAndDistinct(a, b, k, Steps(a, b));
    }
  }

  ghost function Trace(a: Point, b: Point, n: nat): iset<Point> {
    iset k | 0 <= k < n :: Point(Iterate(a, b, k).x, Iterate(a, b, k).y)
  }

  lemma TraceIsLine(a: Point, b: Point, n: nat)
    requires n <= Steps(a, b) + 1
    ensures Trace(a, b, n) == Line(a, b, n)
  {
    forall k: nat | k < n
      ensures LineAt(a, b, k) == Point(Iterate(a, b, k).x, Iterate(a, b, k).y)
    {
      IterateOnLine(a, b, k);
    }
    assert forall p :: p in Trace(a, b, n) ==> p in Line(a, b, n);
    assert forall p :: p in Line(a, b, n) ==> p in Trace(a, b, n);
  }

  /** The loop of `drawLine`: it terminates, and plots one pixel a pass. */
  method PlotLine(png: Canvas, x1: int, y1: int, x2: int, y2: int, color: Color)
    requires png.Valid()
    modifies png.data
    ensures var a, b := Point(x1, y1), Point(x2, y2);
            Paints(png.width, old(png.data[..]), png.data[..], Trace(a, b, Steps(a, b) + 1), color)
  {
    ghost var a, b := Point(x1, y1), Point(x2, y2);
    var currentX, currentY := x1, y1;
    var deltaX, deltaY := Abs(x2 - currentX), Abs(y2 - currentY);
    var stepX, stepY := Toward(currentX, x2), Toward(currentY, y2);
    var error := deltaX - deltaY;
    ghost var k := 0;
    while true
      invariant 0 <= k <= Steps(a, b)
      invariant Cursor(currentX, currentY, error) == Iterate(a, b, k)
      invariant Paints(png.width, old(png.data[..]), png.data[..], Trace(a, b, k), color)
      decreases Steps(a, b) - k
    {
      ghost var before := png.data[..];
      SetPixel(png, currentX, currentY, color);
      PaintsTwice(png.width, old(png.data[..]), before, png.data[..],
                  Trace(a, b, k), iset{Point(currentX, currentY)}, Trace(a, b, k + 1), color);
      ExitsAtTarget(a, b, k);
      if currentX == x2 && currentY == y2 {
        break;
      }
      var doubleError := error * 2;
      if doubleError > -deltaY {
        error := error - deltaY;
        currentX := currentX + stepX;
      }
      if doubleError < deltaX {
        error := error + deltaX;
        currentY := currentY + stepY;
      }
      k := k + 1;
    }
  }

  /** `drawLine` sets exactly the pixels of the rounded ideal line from one end to the other. */
  method DrawLine(png: Canvas, x1: int, y1: int, x2: int, y2: int, color: Color)
    requires png.Valid()
    modifies png.data
    ensures var a, b := Point(x1, y1), Point(x2, y2);
            Paints(png.width, old(png.data[..]), png.data[..], Line(a, b, Steps(a, b) + 1), color)
  {
    PlotLine(png, x1, y1, x2, y2, color);
    TraceIsLine(Point(x1, y1), Point(x2, y2), Steps(Point(x1, y1), Point(x2, y2)) + 1);
  }
}
