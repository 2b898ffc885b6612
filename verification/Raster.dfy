/** The pixel buffer of the export preview and its filled shapes (src/modules/export/export.service.ts). */
module Raster {
  import opened Common

  type Byte = b: int | 0 <= b < 256

  datatype Point = Point(x: int, y: int)

  datatype Color = Color(red: Byte, green: Byte, blue: Byte, alpha: Byte) {
    function Channel(c: int): Byte {
      if c == 0 then red else if c == 1 then green else if c == 2 then blue else alpha
    }
  }

  /** A PNG image: four bytes a pixel, row by row. */
  class Canvas {
    const width: nat
    const height: nat
    const data: array<Byte>

    ghost predicate Valid() {
      data.Length == 4 * (width * height)
    }

    // The source computes byte offsets with a 32-bit shift, so the buffer stays below 2^31 bytes.
    constructor (width: nat, height: nat)
      requires 4 * (width * height) < 0x8000_0000
      ensures Valid() && fresh(data) && this.width == width && this.height == height
      ensures forall i :: 0 <= i < data.Length ==> data[i] == 0
    {
      this.width, this.height := width, height;
      data := new Byte[4 * (width * height)](_ => 0);
    }
  }

  /** The pixel that byte `i` of a `width`-wide image belongs to. */
  function Owner(width: nat, i: nat): Point {
    if width == 0 then Point(0, 0) else Point((i / 4) % width, (i / 4) / width)
  }

  lemma OwnerOfOffset(width: nat, x: nat, y: nat, c: nat)
    requires x < width && c < 4
    ensures var i := 4 * (width * y + x) + c;
            i >= 0 && Owner(width, i) == Point(x, y) && i % 4 == c
  {
    var q := width * y + x;
    assert (4 * q + c) / 4 == q;
    DivModUnique(width, y, x);
  }

  lemma FourBytes(width: nat, x: nat, y: nat, i: nat)
    requires x < width && i == 4 * (width * Owner(width, i).y + Owner(width, i).x) + i % 4
    ensures Owner(width, i) == Point(x, y) <==> 0 <= i - 4 * (width * y + x) < 4
    ensures Owner(width, i) == Point(x, y) ==> i % 4 == i - 4 * (width * y + x)
  {
    var c := i - 4 * (width * y + x);
    if 0 <= c < 4 {
      OwnerOfOffset(width, x, y, c);
    }
  }

  /** Every byte of the buffer belongs to a pixel of the image. */
  lemma OwnerInside(width: nat, height: nat, i: nat)
    requires i < 4 * (width * height)
    ensures var p := Owner(width, i); 0 <= p.x < width && 0 <= p.y < height && i == 4 * (width * p.y + p.x) + i % 4
  {
    var q := i / 4;
    assert q < width * height;
    assert width != 0;
    assert q == width * (q / width) + q % width;
    CancelFactor(q / width, height, width);
  }

  ghost function Box(x: int, y: int, width: int, height: int): iset<Point> {
    iset p: Point | x <= p.x < x + width && y <= p.y < y + height
  }

  ghost function Disc(x: int, y: int, radius: int): iset<Point> {
    iset p: Point | -radius <= p.x - x <= radius && -radius <= p.y - y <= radius
                    && (p.x - x) * (p.x - x) + (p.y - y) * (p.y - y) <= radius * radius
  }

  /** `after` is `before` with exactly the pixels of `shape` that lie on the image set to `color`. */
  ghost predicate Paints(width: nat, before: seq<Byte>, after: seq<Byte>, shape: iset<Point>, color: Color) {
    |after| == |before|
    && forall i :: 0 <= i < |after| ==>
         after[i] == if Owner(width, i) in shape then color.Channel(i % 4) else before[i]
  }

  // ----- Drawings -----

  /** A set of pixels in one color. */
  datatype Stroke = Stroke(shape: iset<Point>, color: Color)

  /** Channel `c` of pixel `p` after the strokes: the last stroke over a pixel wins. */
  ghost function Final(strokes: seq<Stroke>, p: Point, c: int, initial: Byte): Byte
    decreases |strokes|
  {
    if strokes == [] then initial
    else
      var last := strokes[|strokes| - 1];
      if p in last.shape then last.color.Channel(c) else Final(strokes[..|strokes| - 1], p, c, initial)
  }

  /** `after` is `before` with the strokes drawn over it in order. */
  ghost predicate Draws(width: nat, before: seq<Byte>, after: seq<Byte>, strokes: seq<Stroke>) {
    |after| == |before|
    && forall i :: 0 <= i < |after| ==> after[i] == Final(strokes, Owner(width, i), i % 4, before[i])
  }

  /** All strokes stay in the region. */
  ghost predicate Inside(strokes: seq<Stroke>, region: iset<Point>) {
    forall i :: 0 <= i < |strokes| ==> strokes[i].shape <= region
  }

  lemma DrawsOneMore(width: nat, a: seq<Byte>, b: seq<Byte>, c: seq<Byte>, strokes: seq<Stroke>, shape: iset<Point>,
                     color: Color)
    requires Draws(width, a, b, strokes) && Paints(width, b, c, shape, color)
    ensures Draws(width, a, c, strokes + [Stroke(shape, color)])
  {
    assert (strokes + [Stroke(shape, color)])[..|strokes|] == strokes;
  }

  lemma {:induction false} FinalConcat(first: seq<Stroke>, second: seq<Stroke>, p: Point, c: int, initial: Byte)
    ensures Final(first + second, p, c, initial) == Final(second, p, c, Final(first, p, c, initial))
    decreases |second|
  {
    if second == [] {
      assert first + second == first;
    } else {
      var init := second[..|second| - 1];
      FinalConcat(first, init, p, c, initial);
      assert (first + second)[..|first + second| - 1] == first + init;
    }
  }

  /** Strokes leave every pixel outside their region as it was. */
  lemma {:induction false} FinalOutside(strokes: seq<Stroke>, region: iset<Point>, p: Point, c: int, initial: Byte)
    requires Inside(strokes, region) && p !in region
    ensures Final(strokes, p, c, initial) == initial
    decreases |strokes|
  {
    if strokes != [] {
      FinalOutside(strokes[..|strokes| - 1], region, p, c, initial);
      assert strokes[|strokes| - 1].shape <= region;
    }
  }

  /** What was there before shows through only where no stroke covers it. */
  lemma {:induction false} FinalCovered(strokes: seq<Stroke>, p: Point, c: int, initial: Byte, other: Byte)
    requires strokes != [] && p in strokes[0].shape
    ensures Final(strokes, p, c, initial) == Final(strokes, p, c, other)
    decreases |strokes|
  {
    if |strokes| > 1 {
      FinalCovered(strokes[..|strokes| - 1], p, c, initial, other);
    }
  }

  lemma AppendOutside(first: seq<Stroke>, second: seq<Stroke>, region: iset<Point>, p: Point, c: int, initial: Byte)
    requires Inside(second, region) && p !in region
    ensures Final(first + second, p, c, initial) == Final(first, p, c, initial)
  {
    FinalConcat(first, second, p, c, initial);
    FinalOutside(second, region, p, c, Final(first, p, c, initial));
  }

  lemma AppendCovered(first: seq<Stroke>, second: seq<Stroke>, p: Point, c: int, initial: Byte, background: Byte)
    requires second != [] && p in second[0].shape
    ensures Final(first + second, p, c, initial) == Final(second, p, c, background)
  {
    FinalConcat(first, second, p, c, initial);
    FinalCovered(second, p, c, Final(first, p, c, initial), background);
  }

  /** A drawing made of parts: `head`, then the first `n` parts. */
  ghost function Together(head: seq<Stroke>, parts: seq<seq<Stroke>>, n: nat): seq<Stroke>
    requires n <= |parts|
  {
    if n == 0 then head else Together(head, parts, n - 1) + parts[n - 1]
  }

  /** Parts that stay in regions without the pixel leave it alone. */
  lemma {:induction false} OthersLeaveIt(head: seq<Stroke>, parts: seq<seq<Stroke>>, regions: seq<iset<Point>>,
                                         first: nat, n: nat, p: Point, c: int, initial: Byte)
    requires |parts| == |regions| && first <= n <= |parts|
    requires forall j :: first <= j < n ==> Inside(parts[j], regions[j]) && p !in regions[j]
    ensures Final(Together(head, parts, n), p, c, initial) == Final(Together(head, parts, first), p, c, initial)
  {
    if first < n {
      OthersLeaveIt(head, parts, regions, first, n - 1, p, c, initial);
      AppendOutside(Together(head, parts, n - 1), parts[n - 1], regions[n - 1], p, c, initial);
    }
  }

  /** A pixel of one region only, which its part covers from the start, shows that part alone. */
  lemma OwnPartOnly(head: seq<Stroke>, parts: seq<seq<Stroke>>, regions: seq<iset<Point>>, i: nat, p: Point, c: int,
                    initial: Byte, background: Byte)
    requires |parts| == |regions| && i < |parts|
    requires forall j :: 0 <= j < |parts| ==> Inside(parts[j], regions[j])
    requires forall j :: 0 <= j < |parts| && j != i ==> p !in regions[j]
    requires parts[i] != [] && p in parts[i][0].shape
    ensures Final(Together(head, parts, |parts|), p, c, initial) == Final(parts[i], p, c, background)
  {
    OthersLeaveIt(head, parts, regions, i + 1, |parts|, p, c, initial);
    AppendCovered(Together(head, parts, i), parts[i], p, c, initial, background);
  }

  lemma PaintsTwice(width: nat, a: seq<Byte>, b: seq<Byte>, c: seq<Byte>, s: iset<Point>, t: iset<Point>,
                    u: iset<Point>, color: Color)
    requires Paints(width, a, b, s, color) && Paints(width, b, c, t, color)
    requires forall p :: p in u <==> p in s || p in t
    ensures Paints(width, a, c, u, color)
  {
  }

  lemma OffsetInside(width: nat, height: nat, x: nat, y: nat)
    requires x < width && y < height
    ensures 0 <= width * y + x < width * height
  {
    assert width * (y + 1) == width * y + width;
    assert width * (y + 1) <= width * height;
  }

  method SetPixel(png: Canvas, x: int, y: int, color: Color)
    requires png.Valid()
    modifies png.data
    ensures Paints(png.width, old(png.data[..]), png.data[..], iset{Point(x, y)}, color)
  {
    if x < 0 || y < 0 || x >= png.width || y >= png.height {
      forall i | 0 <= i < png.data.Length
        ensures Owner(png.width, i) != Point(x, y)
      {
        OwnerInside(png.width, png.height, i);
      }
      return;
    }
    OffsetInside(png.width, png.height, x, y);
    var offset := 4 * (png.width * y + x);
    png.data[offset] := color.red;
    png.data[offset + 1] := color.green;
    png.data[offset + 2] := color.blue;
    png.data[offset + 3] := color.alpha;
    forall i | 0 <= i < png.data.Length
      ensures png.data[i] == if Owner(png.width, i) == Point(x, y) then color.Channel(i % 4) else old(png.data[i])
    {
      OwnerInside(png.width, png.height, i);
      FourBytes(png.width, x, y, i);
    }
  }

  /** Rows and pixels off the image are skipped, which `SetPixel` would do too. */
  lemma OffImage(png: Canvas, shape: iset<Point>, color: Color, data: seq<Byte>)
    requires png.Valid() && |data| == png.data.Length
    requires forall p: Point :: p in shape ==> p.x < 0 || p.x >= png.width || p.y < 0 || p.y >= png.height
    ensures Paints(png.width, data, data, shape, color)
  {
    forall i | 0 <= i < |data|
      ensures Owner(png.width, i) !in shape
    {
      OwnerInside(png.width, png.height, i);
    }
  }

  /** One row of a filled rectangle. */
  method FillRow(png: Canvas, x: int, y: int, width: int, color: Color)
    requires png.Valid()
    modifies png.data
    ensures Paints(png.width, old(png.data[..]), png.data[..], Box(x, y, width, 1), color)
  {
    var dx := 0;
    while dx < width
      invariant 0 <= dx <= Max(width, 0)
      invariant Paints(png.width, old(png.data[..]), png.data[..], Box(x, y, dx, 1), color)
    {
      ghost var before := png.data[..];
      var px := x + dx;
      if px < 0 || px >= png.width {
        OffImage(png, iset{Point(px, y)}, color, before);
      } else {
        SetPixel(png, px, y, color);
      }
      PaintsTwice(png.width, old(png.data[..]), before, png.data[..],
                  Box(x, y, dx, 1), iset{Point(px, y)}, Box(x, y, dx + 1, 1), color);
      dx := dx + 1;
    }
  }

  method FillRect(png: Canvas, x: int, y: int, width: int, height: int, color: Color)
    requires png.Valid()
    modifies png.data
    ensures Paints(png.width, old(png.data[..]), png.data[..], Box(x, y, width, height), color)
  {
    var dy := 0;
    while dy < height
      invariant 0 <= dy <= Max(height, 0)
      invariant Paints(png.width, old(png.data[..]), png.data[..], Box(x, y, width, dy), color)
    {
      ghost var before := png.data[..];
      var py := y + dy;
      if py < 0 || py >= png.height {
        OffImage(png, Box(x, py, width, 1), color, before);
      } else {
        FillRow(png, x, py, width, color);
      }
      PaintsTwice(png.width, old(png.data[..]), before, png.data[..],
                  Box(x, y, width, dy), Box(x, py, width, 1), Box(x, y, width, dy + 1), color);
      dy := dy + 1;
    }
  }

  /** Fills one more rectangle in a drawing in progress. */
  method FillNext(png: Canvas, x: int, y: int, width: int, height: int, color: Color, ghost start: seq<Byte>,
                  ghost strokes: seq<Stroke>)
    requires png.Valid() && Draws(png.width, start, png.data[..], strokes)
    modifies png.data
    ensures Draws(png.width, start, png.data[..], strokes + [Stroke(Box(x, y, width, height), color)])
  {
    ghost var before := png.data[..];
    FillRect(png, x, y, width, height, color);
    DrawsOneMore(png.width, start, before, png.data[..], strokes, Box(x, y, width, height), color);
  }

  ghost function DiscUpTo(x: int, y: int, radius: int, dx: int, dy: int): iset<Point> {
    iset p: Point | p in Disc(x, y, radius) && (p.y < y + dy || (p.y == y + dy && p.x < x + dx))
  }

  method DrawCircle(png: Canvas, x: int, y: int, radius: int, color: Color)
    requires png.Valid()
    modifies png.data
    ensures Paints(png.width, old(png.data[..]), png.data[..], Disc(x, y, radius), color)
  {
    var dy := -radius;
    while dy <= radius
      invariant radius >= 0 ==> -radius <= dy <= radius + 1
      invariant Paints(png.width, old(png.data[..]), png.data[..], DiscUpTo(x, y, radius, -radius, dy), color)
    {
      var dx := -radius;
      while dx <= radius
        invariant -radius <= dx <= radius + 1
        invariant Paints(png.width, old(png.data[..]), png.data[..], DiscUpTo(x, y, radius, dx, dy), color)
      {
        ghost var before := png.data[..];
        ghost var plotted := if dx * dx + dy * dy <= radius * radius then iset{Point(x + dx, y + dy)} else iset{};
        if dx * dx + dy * dy <= radius * radius {
          SetPixel(png, x + dx, y + dy, color);
        }
        DiscStep(x, y, radius, dx, dy);
        PaintsTwice(png.width, old(png.data[..]), before, png.data[..],
                    DiscUpTo(x, y, radius, dx, dy), plotted, DiscUpTo(x, y, radius, dx + 1, dy), color);
        dx := dx + 1;
      }
      assert DiscUpTo(x, y, radius, radius + 1, dy) == DiscUpTo(x, y, radius, -radius, dy + 1);
      dy := dy + 1;
    }
    assert DiscUpTo(x, y, radius, -radius, dy) == Disc(x, y, radius);
  }

  lemma DiscStep(x: int, y: int, radius: int, dx: int, dy: int)
    requires -radius <= dx <= radius && -radius <= dy <= radius
    ensures forall p :: p in DiscUpTo(x, y, radius, dx + 1, dy) <==>
              p in DiscUpTo(x, y, radius, dx, dy)
              || (p == Point(x + dx, y + dy) && dx * dx + dy * dy <= radius * radius)
  {
    forall p: Point | p.y == y + dy && p.x == x + dx
      ensures (p.x - x) * (p.x - x) + (p.y - y) * (p.y - y) == dx * dx + dy * dy
    {
    }
  }
}
