/** The slide cards of an export and the previews drawn in them (src/modules/export/export.service.ts). */
module Preview {
  import opened Common
  import opened Raster
  import opened Lines

  datatype Resolution = Standard | Hd | Ultra

  datatype Layout = Layout(width: nat, height: nat, columns: nat, gap: nat, cardWidth: nat, cardHeight: nat)

  type Word = w: nat | w < 0x1_0000_0000

  /** `seed` is the 32-bit hash of the slide's id. */
  datatype Slide = Slide(seed: Word, elementCount: nat, accent: (Byte, Byte, Byte))

  function CanvasWidth(resolution: Resolution): nat {
    match resolution
    case Standard => 1200
    case Hd => 1600
    case Ultra => 2200
  }

  function ResolveLayout(slideCount: nat, resolution: Resolution): Layout {
    var width := CanvasWidth(resolution);
    var columns := if slideCount > 1 then 2 else 1;
    var gap := 32;
    var cardWidth := if columns == 1 then width - 96 else (width - 96 - gap) / columns;
    var cardHeight := 290;
    var rows := Max(1, (slideCount + columns - 1) / columns);
    Layout(width, Max(900, 216 + rows * (cardHeight + gap)), columns, gap, cardWidth, cardHeight)
  }

  function CardPosition(index: nat, layout: Layout): Point
    requires layout.columns > 0
  {
    var column, row := index % layout.columns, index / layout.columns;
    Point(48 + column * (layout.cardWidth + layout.gap), 224 + row * (layout.cardHeight + layout.gap))
  }

  ghost function Card(slideCount: nat, resolution: Resolution, index: nat): iset<Point> {
    var layout := ResolveLayout(slideCount, resolution);
    var at := CardPosition(index, layout);
    Box(at.x, at.y, layout.cardWidth, layout.cardHeight)
  }

  /** Every card lies inside the image, below the header. */
  lemma CardInside(slideCount: nat, resolution: Resolution, index: nat, p: Point)
    requires index < slideCount && p in Card(slideCount, resolution, index)
    ensures var layout := ResolveLayout(slideCount, resolution);
            48 <= p.x < layout.width - 48 && 224 <= p.y < layout.height
  {
  }

  /** Cards never overlap. */
  lemma CardsDisjoint(slideCount: nat, resolution: Resolution, i: nat, j: nat, p: Point)
    requires i < j < slideCount
    requires p in Card(slideCount, resolution, i)
    ensures p !in Card(slideCount, resolution, j)
  {
  }

  // ----- The generator -----

  function NextSeed(state: Word): Word {
    (state * 1664525 + 1013904223) % 0x1_0000_0000
  }

  /** The generator's state after `n` calls. */
  function Seeds(seed: Word, n: nat): Word {
    if n == 0 then (if seed == 0 then 1 else seed) else NextSeed(Seeds(seed, n - 1))
  }

  /** Distinct generator states have distinct successors: the generator permutes its states. */
  lemma NextSeedInjective(a: Word, b: Word)
    requires NextSeed(a) == NextSeed(b)
    ensures a == b
  {
    var d := (a - b) * 1664525;
    var q := (a * 1664525 + 1013904223) / 0x1_0000_0000 - (b * 1664525 + 1013904223) / 0x1_0000_0000;
    assert d == q * 0x1_0000_0000;
    // 4276115653 is the inverse of 1664525 modulo 2^32.
    assert 1664525 * 4276115653 == 1657219 * 0x1_0000_0000 + 1;
    assert (a - b) == (q * 4276115653 - (a - b) * 1657219) * 0x1_0000_0000;
  }

  /** `Math.floor(random() * n)`, where `random()` is the generator state over 0xffffffff, both ends included. */
  function Pick(state: Word, n: nat): int {
    (state as real / 4294967295.0 * n as real).Floor
  }

  lemma ScaleBelow(random: real, bound: real)
    requires 0.0 <= random <= 1.0 && 0.0 <= bound
    ensures 0.0 <= random * bound <= bound
  {
  }

  lemma PickRange(state: Word, n: nat)
    ensures 0 <= Pick(state, n) <= n
    ensures state == 0 ==> Pick(state, n) == 0
    ensures state == 0xffff_ffff ==> Pick(state, n) == n
  {
    var random, bound := state as real / 4294967295.0, n as real;
    assert 0.0 <= random <= 1.0;
    ScaleBelow(random, bound);
  }

  // ----- Drawing -----

  ghost function BoxStroke(x: int, y: int, width: int, height: int, color: Color): Stroke {
    Stroke(Box(x, y, width, height), color)
  }

  ghost function LineStroke(x1: int, y1: int, x2: int, y2: int, color: Color): Stroke {
    var a, b := Point(x1, y1), Point(x2, y2);
    Stroke(Line(a, b, Steps(a, b) + 1), color)
  }

  /** The frame of a rectangle: top, left, right and bottom edge. */
  ghost function RectStrokes(x: int, y: int, width: int, height: int, color: Color): seq<Stroke> {
    [LineStroke(x, y, x + width - 1, y, color)]
    + [LineStroke(x, y, x, y + height - 1, color)]
    + [LineStroke(x + width - 1, y, x + width - 1, y + height - 1, color)]
    + [LineStroke(x, y + height - 1, x + width - 1, y + height - 1, color)]
  }

  /** Draws one more line in a drawing in progress. */
  method DrawLineNext(png: Canvas, x1: int, y1: int, x2: int, y2: int, color: Color, ghost start: seq<Byte>,
                      ghost strokes: seq<Stroke>)
    requires png.Valid() && Draws(png.width, start, png.data[..], strokes)
    modifies png.data
    ensures Draws(png.width, start, png.data[..], strokes + [LineStroke(x1, y1, x2, y2, color)])
  {
    ghost var before := png.data[..];
    DrawLine(png, x1, y1, x2, y2, color);
    DrawsOneMore(png.width, start, before, png.data[..], strokes, LineStroke(x1, y1, x2, y2, color).shape, color);
  }

  method DrawRect(png: Canvas, x: int, y: int, width: int, height: int, color: Color, ghost start: seq<Byte>,
                  ghost strokes: seq<Stroke>)
    requires png.Valid() && Draws(png.width, start, png.data[..], strokes)
    modifies png.data
    ensures Draws(png.width, start, png.data[..], strokes + RectStrokes(x, y, width, height, color))
  {
    ghost var a := LineStroke(x, y, x + width - 1, y, color);
    ghost var b := LineStroke(x, y, x, y + height - 1, color);
    ghost var c := LineStroke(x + width - 1, y, x + width - 1, y + height - 1, color);
    ghost var d := LineStroke(x, y + height - 1, x + width - 1, y + height - 1, color);
    DrawLineNext(png, x, y, x + width - 1, y, color, start, strokes);
    DrawLineNext(png, x, y, x, y + height - 1, color, start, strokes + [a]);
    DrawLineNext(png, x + width - 1, y, x + width - 1, y + height - 1, color, start, strokes + [a] + [b]);
    DrawLineNext(png, x, y + height - 1, x + width - 1, y + height - 1, color, start, strokes + [a] + [b] + [c]);
    FourMore(strokes, a, b, c, d);
  }

  lemma FourMore(strokes: seq<Stroke>, a: Stroke, b: Stroke, c: Stroke, d: Stroke)
    ensures strokes + [a] + [b] + [c] + [d] == strokes + ([a] + [b] + [c] + [d])
  {
  }

  /** One shape of a preview, as drawn from four random numbers. */
  datatype Shape = Shape(kind: nat, left: int, top: int, width: int, height: int)

  function ShapeOf(seed: Word, index: nat, x: int, y: int, width: int, height: int): Shape {
    Shape(index % 3,
          x + Pick(Seeds(seed, 4 * index + 1), Max(1, width - 90)),
          y + Pick(Seeds(seed, 4 * index + 2), Max(1, height - 70)),
          28 + Pick(Seeds(seed, 4 * index + 3), 96),
          18 + Pick(Seeds(seed, 4 * index + 4), 72))
  }

  function ShapeColor(kind: nat, accent: (Byte, Byte, Byte)): Color {
    if kind == 0 then Color(accent.0, accent.1, accent.2, 180)
    else if kind == 1 then Color(15, 23, 42, 160) else Color(56, 189, 248, 180)
  }

  /** A filled rectangle, a pair of crossed lines cut at the frame, or a disc. */
  ghost function ShapeStrokes(shape: Shape, x: int, y: int, width: int, height: int,
                              accent: (Byte, Byte, Byte)): seq<Stroke> {
    var color := ShapeColor(shape.kind, accent);
    if shape.kind == 0 then [BoxStroke(shape.left, shape.top, shape.width, shape.height, color)]
    else if shape.kind == 1 then
      var right, bottom := Min(x + width - 1, shape.left + shape.width), Min(y + height - 1, shape.top + shape.height);
      [LineStroke(shape.left, shape.top, right, bottom, color)]
      + [LineStroke(shape.left, bottom, right, shape.top, color)]
    else
      [Stroke(Disc(shape.left + shape.width / 2, shape.top + shape.height / 2,
                   Max(8, Min(shape.width, shape.height) / 2)), color)]
  }

  function ShapeCount(slide: Slide): nat {
    Max(3, Min(8, if slide.elementCount == 0 then 3 else slide.elementCount))
  }

  /** The first `n` shapes of a preview. */
  ghost function PreviewStrokes(slide: Slide, x: int, y: int, width: int, height: int, n: nat): seq<Stroke> {
    if n == 0 then []
    else PreviewStrokes(slide, x, y, width, height, n - 1)
         + ShapeStrokes(ShapeOf(slide.seed, n - 1, x, y, width, height), x, y, width, height, slide.accent)
  }

  method DrawShape(png: Canvas, shape: Shape, x: int, y: int, width: int, height: int, accent: (Byte, Byte, Byte),
                   ghost start: seq<Byte>, ghost strokes: seq<Stroke>)
    requires png.Valid() && Draws(png.width, start, png.data[..], strokes)
    modifies png.data
    ensures Draws(png.width, start, png.data[..], strokes + ShapeStrokes(shape, x, y, width, height, accent))
  {
    var color := ShapeColor(shape.kind, accent);
    if shape.kind == 0 {
      FillNext(png, shape.left, shape.top, shape.width, shape.height, color, start, strokes);
    } else if shape.kind == 1 {
      var right, bottom := Min(x + width - 1, shape.left + shape.width), Min(y + height - 1, shape.top + shape.height);
      ghost var first := LineStroke(shape.left, shape.top, right, bottom, color);
      ghost var second := LineStroke(shape.left, bottom, right, shape.top, color);
      DrawLineNext(png, shape.left, shape.top, right, bottom, color, start, strokes);
      DrawLineNext(png, shape.left, bottom, right, shape.top, color, start, strokes + [first]);
      assert strokes + [first] + [second] == strokes + ([first] + [second]);
    } else {
      var cx, cy, radius :=
          shape.left + shape.width / 2, shape.top + shape.height / 2, Max(8, Min(shape.width, shape.height) / 2);
      ghost var before := png.data[..];
      DrawCircle(png, cx, cy, radius, color);
      DrawsOneMore(png.width, start, before, png.data[..], strokes, Disc(cx, cy, radius), color);
    }
  }

  /** Draws four random numbers and places a shape with them. */
  method NextShape(ghost seed: Word, state: Word, index: nat, x: int, y: int, width: int, height: int)
      returns (shape: Shape, next: Word)
    requires state == Seeds(seed, 4 * index)
    ensures shape == ShapeOf(seed, index, x, y, width, height) && next == Seeds(seed, 4 * (index + 1))
  {
    FourSeeds(seed, index);
    next := NextSeed(state);
    var left := x + Pick(next, Max(1, width - 90));
    next := NextSeed(next);
    var top := y + Pick(next, Max(1, height - 70));
    next := NextSeed(next);
    var shapeWidth := 28 + Pick(next, 96);
    next := NextSeed(next);
    var shapeHeight := 18 + Pick(next, 72);
    shape := Shape(index % 3, left, top, shapeWidth, shapeHeight);
  }

  /** `drawPreview`: between three and eight shapes, placed by the generator. */
  method DrawPreview(png: Canvas, slide: Slide, x: int, y: int, width: int, height: int, ghost start: seq<Byte>,
                     ghost strokes: seq<Stroke>)
    requires png.Valid() && Draws(png.width, start, png.data[..], strokes)
    modifies png.data
    ensures Draws(png.width, start, png.data[..],
                  strokes + PreviewStrokes(slide, x, y, width, height, ShapeCount(slide)))
  {
    var state := if slide.seed == 0 then 1 else slide.seed;
    assert strokes + [] == strokes;
    for index := 0 to ShapeCount(slide)
      invariant state == Seeds(slide.seed, 4 * index)
      invariant Draws(png.width, start, png.data[..], strokes + PreviewStrokes(slide, x, y, width, height, index))
    {
      var shape;
      shape, state := NextShape(slide.seed, state, index, x, y, width, height);
      DrawShape(png, shape, x, y, width, height, slide.accent, start,
                strokes + PreviewStrokes(slide, x, y, width, height, index));
      Regroup(strokes, PreviewStrokes(slide, x, y, width, height, index),
              ShapeStrokes(shape, x, y, width, height, slide.accent));
    }
  }

  lemma Regroup(a: seq<Stroke>, b: seq<Stroke>, c: seq<Stroke>)
    ensures a + b + c == a + (b + c)
  {
  }

  lemma FourSeeds(seed: Word, index: nat)
    ensures Seeds(seed, 4 * index + 1) == NextSeed(Seeds(seed, 4 * index))
    ensures Seeds(seed, 4 * index + 2) == NextSeed(Seeds(seed, 4 * index + 1))
    ensures Seeds(seed, 4 * index + 3) == NextSeed(Seeds(seed, 4 * index + 2))
    ensures Seeds(seed, 4 * index + 4) == NextSeed(Seeds(seed, 4 * index + 3))
    ensures Seeds(seed, 4 * (index + 1)) == Seeds(seed, 4 * index + 4)
  {
  }

  // ----- Cards -----

  ghost function PanelStrokes(x: int, y: int, width: int, height: int, fill: Color, edge: Color): seq<Stroke> {
    [BoxStroke(x, y, width, height, fill)] + RectStrokes(x, y, width, height, edge)
  }

  const WHITE := Color(255, 255, 255, 255)
  const PAPER := Color(248, 250, 252, 255)

  ghost function CardPanel(at: Point, width: nat, height: nat): seq<Stroke> {
    PanelStrokes(at.x, at.y, width, height, WHITE, Color(203, 213, 225, 255))
  }

  ghost function AccentBar(slide: Slide, at: Point, width: nat): seq<Stroke> {
    [BoxStroke(at.x, at.y, width, 18, Color(slide.accent.0, slide.accent.1, slide.accent.2, 255))]
  }

  ghost function PreviewPanel(at: Point, width: nat, height: nat): seq<Stroke> {
    PanelStrokes(at.x + 24, at.y + 152, width - 48, height - 176, PAPER, Color(226, 232, 240, 255))
  }

  ghost function CardPreview(slide: Slide, at: Point, width: nat, height: nat): seq<Stroke> {
    PreviewStrokes(slide, at.x + 36, at.y + 164, width - 72, height - 200, ShapeCount(slide))
  }

  /** A card without its texts: its panel, an accent bar, the preview's panel, and the preview. */
  ghost function CardStrokes(slide: Slide, at: Point, width: nat, height: nat): seq<Stroke> {
    CardPanel(at, width, height) + AccentBar(slide, at, width) + PreviewPanel(at, width, height)
    + CardPreview(slide, at, width, height)
  }

  method DrawPanel(png: Canvas, x: int, y: int, width: int, height: int, fill: Color, edge: Color,
                   ghost start: seq<Byte>, ghost strokes: seq<Stroke>)
    requires png.Valid() && Draws(png.width, start, png.data[..], strokes)
    modifies png.data
    ensures Draws(png.width, start, png.data[..], strokes + PanelStrokes(x, y, width, height, fill, edge))
  {
    FillNext(png, x, y, width, height, fill, start, strokes);
    DrawRect(png, x, y, width, height, edge, start, strokes + [BoxStroke(x, y, width, height, fill)]);
    Regroup(strokes, [BoxStroke(x, y, width, height, fill)], RectStrokes(x, y, width, height, edge));
  }

  method DrawCard(png: Canvas, slide: Slide, at: Point, width: nat, height: nat, ghost start: seq<Byte>,
                  ghost strokes: seq<Stroke>)
    requires png.Valid() && Draws(png.width, start, png.data[..], strokes)
    modifies png.data
    ensures Draws(png.width, start, png.data[..], strokes + CardStrokes(slide, at, width, height))
  {
    var edge, innerEdge := Color(203, 213, 225, 255), Color(226, 232, 240, 255);
    var accent := Color(slide.accent.0, slide.accent.1, slide.accent.2, 255);
    var previewX, previewY, previewWidth, previewHeight := at.x + 24, at.y + 152, width - 48, height - 176;
    ghost var panel := PanelStrokes(at.x, at.y, width, height, WHITE, edge);
    ghost var bar := [BoxStroke(at.x, at.y, width, 18, accent)];
    ghost var inner := PanelStrokes(previewX, previewY, previewWidth, previewHeight, PAPER, innerEdge);
    DrawPanel(png, at.x, at.y, width, height, WHITE, edge, start, strokes);
    FillNext(png, at.x, at.y, width, 18, accent, start, strokes + panel);
    DrawPanel(png, previewX, previewY, previewWidth, previewHeight, PAPER, innerEdge, start, strokes + panel + bar);
    DrawPreview(png, slide, previewX + 12, previewY + 12, previewWidth - 24, previewHeight - 24, start,
                strokes + panel + bar + inner);
    ghost var preview := PreviewStrokes(slide, at.x + 36, at.y + 164, width - 72, height - 200, ShapeCount(slide));
    RegroupFour(strokes, panel, bar, inner, preview);
  }

  lemma RegroupFour(strokes: seq<Stroke>, a: seq<Stroke>, b: seq<Stroke>, c: seq<Stroke>, d: seq<Stroke>)
    ensures strokes + a + b + c + d == strokes + (a + b + c + d)
  {
  }

  ghost function HeaderStrokes(layout: Layout): seq<Stroke> {
    [BoxStroke(0, 0, layout.width, layout.height, PAPER)]
    + [BoxStroke(0, 0, layout.width, 176, Color(17, 24, 39, 255))]
    + [BoxStroke(0, 176, layout.width, 8, Color(56, 189, 248, 255))]
  }

  /** The drawings of the slides, one after the other. */
  ghost function SlideStrokes(slides: seq<Slide>, layout: Layout): seq<seq<Stroke>>
    requires layout.columns > 0
  {
    seq(|slides|, i requires 0 <= i < |slides| =>
        CardStrokes(slides[i], CardPosition(i, layout), layout.cardWidth, layout.cardHeight))
  }

  /** Everything an export draws, its texts aside. */
  ghost function DocumentStrokes(slides: seq<Slide>, layout: Layout): seq<Stroke>
    requires layout.columns > 0
  {
    Together(HeaderStrokes(layout), SlideStrokes(slides, layout), |slides|)
  }

  method DrawHeader(png: Canvas, layout: Layout, ghost start: seq<Byte>)
    requires png.Valid() && start == png.data[..]
    modifies png.data
    ensures Draws(png.width, start, png.data[..], HeaderStrokes(layout))
  {
    ghost var page := BoxStroke(0, 0, layout.width, layout.height, PAPER);
    ghost var band := BoxStroke(0, 0, layout.width, 176, Color(17, 24, 39, 255));
    FillNext(png, 0, 0, layout.width, layout.height, PAPER, start, []);
    assert [] + [page] == [page];
    FillNext(png, 0, 0, layout.width, 176, Color(17, 24, 39, 255), start, [page]);
    FillNext(png, 0, 176, layout.width, 8, Color(56, 189, 248, 255), start, [page] + [band]);
  }

  /** The raster part of `buildRasterDocument`, its texts aside. */
  method BuildRaster(slides: seq<Slide>, resolution: Resolution) returns (png: Canvas)
    requires var layout := ResolveLayout(|slides|, resolution); 4 * (layout.width * layout.height) < 0x8000_0000
    ensures fresh(png) && fresh(png.data) && png.Valid()
    ensures png.width == ResolveLayout(|slides|, resolution).width
              && png.height == ResolveLayout(|slides|, resolution).height
    ensures forall i :: 0 <= i < png.data.Length ==>
              png.data[i]
                  == Final(DocumentStrokes(slides, ResolveLayout(|slides|, resolution)), Owner(png.width, i), i % 4, 0)
  {
    var layout := ResolveLayout(|slides|, resolution);
    png := new Canvas(layout.width, layout.height);
    DrawDocument(png, slides, layout);
  }

  method DrawDocument(png: Canvas, slides: seq<Slide>, layout: Layout)
    requires png.Valid() && layout.columns > 0
    modifies png.data
    ensures Draws(png.width, old(png.data[..]), png.data[..], DocumentStrokes(slides, layout))
  {
    ghost var start := png.data[..];
    ghost var head, parts := HeaderStrokes(layout), SlideStrokes(slides, layout);
    DrawHeader(png, layout, start);
    for index := 0 to |slides|
      invariant Draws(png.width, start, png.data[..], Together(head, parts, index))
    {
      DrawCard(png, slides[index], CardPosition(index, layout), layout.cardWidth, layout.cardHeight,
               start, Together(head, parts, index));
    }
  }

  // ----- Confinement -----

  lemma LineStrokeInside(x1: int, y1: int, x2: int, y2: int, color: Color, x: int, y: int, width: int, height: int)
    requires Point(x1, y1) in Box(x, y, width, height) && Point(x2, y2) in Box(x, y, width, height)
    ensures LineStroke(x1, y1, x2, y2, color).shape <= Box(x, y, width, height)
  {
    var a, b := Point(x1, y1), Point(x2, y2);
    forall p | p in Line(a, b, Steps(a, b) + 1)
      ensures p in Box(x, y, width, height)
    {
      var k :| 0 <= k < Steps(a, b) + 1 && p == LineAt(a, b, k);
      LineInBox(a, b, k);
    }
  }

  lemma InsideConcat(first: seq<Stroke>, second: seq<Stroke>, region: iset<Point>)
    requires Inside(first, region) && Inside(second, region)
    ensures Inside(first + second, region)
  {
  }

  lemma InsideWider(strokes: seq<Stroke>, region: iset<Point>, wider: iset<Point>)
    requires Inside(strokes, region) && region <= wider
    ensures Inside(strokes, wider)
  {
    forall i | 0 <= i < |strokes|
      ensures strokes[i].shape <= wider
    {
      assert strokes[i].shape <= region;
    }
  }

  lemma PanelInside(x: int, y: int, width: int, height: int, fill: Color, edge: Color)
    requires width >= 1 && height >= 1
    ensures Inside(PanelStrokes(x, y, width, height, fill, edge), Box(x, y, width, height))
  {
    var right, bottom := x + width - 1, y + height - 1;
    LineStrokeInside(x, y, right, y, edge, x, y, width, height);
    LineStrokeInside(x, y, x, bottom, edge, x, y, width, height);
    LineStrokeInside(right, y, right, bottom, edge, x, y, width, height);
    LineStrokeInside(x, bottom, right, bottom, edge, x, y, width, height);
  }

  /** How far a preview can reach: past its own frame, but no further than this. */
  ghost function Reach(x: int, y: int, width: int, height: int): iset<Point> {
    Box(x, y, Max(1, width - 90) + 124, Max(1, height - 70) + 91)
  }

  ghost predicate Placed(shape: Shape, x: int, y: int, width: int, height: int) {
    && x <= shape.left <= x + Max(1, width - 90) && y <= shape.top <= y + Max(1, height - 70)
    && 28 <= shape.width <= 124 && 18 <= shape.height <= 90
  }

  lemma ShapePlaced(seed: Word, index: nat, x: int, y: int, width: int, height: int)
    ensures Placed(ShapeOf(seed, index, x, y, width, height), x, y, width, height)
  {
    PickRange(Seeds(seed, 4 * index + 1), Max(1, width - 90));
    PickRange(Seeds(seed, 4 * index + 2), Max(1, height - 70));
    PickRange(Seeds(seed, 4 * index + 3), 96);
    PickRange(Seeds(seed, 4 * index + 4), 72);
  }

  lemma LinesInside(shape: Shape, x: int, y: int, width: int, height: int, accent: (Byte, Byte, Byte))
    requires width >= 1 && height >= 1 && Placed(shape, x, y, width, height) && shape.kind == 1
    ensures Inside(ShapeStrokes(shape, x, y, width, height, accent), Reach(x, y, width, height))
  {
    var right, bottom := Min(x + width - 1, shape.left + shape.width), Min(y + height - 1, shape.top + shape.height);
    var reachX, reachY := Max(1, width - 90) + 124, Max(1, height - 70) + 91;
    var color := ShapeColor(1, accent);
    LineStrokeInside(shape.left, shape.top, right, bottom, color, x, y, reachX, reachY);
    LineStrokeInside(shape.left, bottom, right, shape.top, color, x, y, reachX, reachY);
  }

  /** Whatever the generator yields, a shape stays within reach. */
  lemma ShapeInside(shape: Shape, x: int, y: int, width: int, height: int, accent: (Byte, Byte, Byte))
    requires width >= 1 && height >= 1 && Placed(shape, x, y, width, height)
    ensures Inside(ShapeStrokes(shape, x, y, width, height, accent), Reach(x, y, width, height))
  {
    if shape.kind == 1 {
      LinesInside(shape, x, y, width, height, accent);
    }
  }

  lemma {:induction false} PreviewInside(slide: Slide, x: int, y: int, width: int, height: int, n: nat)
    requires width >= 1 && height >= 1
    ensures Inside(PreviewStrokes(slide, x, y, width, height, n), Reach(x, y, width, height))
  {
    if n > 0 {
      PreviewInside(slide, x, y, width, height, n - 1);
      ShapePlaced(slide.seed, n - 1, x, y, width, height);
      ShapeInside(ShapeOf(slide.seed, n - 1, x, y, width, height), x, y, width, height, slide.accent);
      InsideConcat(PreviewStrokes(slide, x, y, width, height, n - 1),
                   ShapeStrokes(ShapeOf(slide.seed, n - 1, x, y, width, height), x, y, width, height, slide.accent),
                   Reach(x, y, width, height));
    }
  }

  lemma CardPreviewInside(slide: Slide, at: Point, width: nat, height: nat)
    requires width >= 162 && height >= 270
    ensures Inside(CardPreview(slide, at, width, height), Box(at.x, at.y, width, height))
  {
    PreviewInside(slide, at.x + 36, at.y + 164, width - 72, height - 200, ShapeCount(slide));
    InsideWider(CardPreview(slide, at, width, height), Reach(at.x + 36, at.y + 164, width - 72, height - 200),
                Box(at.x, at.y, width, height));
  }

  lemma PreviewPanelInside(at: Point, width: nat, height: nat)
    requires width >= 162 && height >= 270
    ensures Inside(PreviewPanel(at, width, height), Box(at.x, at.y, width, height))
  {
    PanelInside(at.x + 24, at.y + 152, width - 48, height - 176, PAPER, Color(226, 232, 240, 255));
    InsideWider(PreviewPanel(at, width, height), Box(at.x + 24, at.y + 152, width - 48, height - 176),
                Box(at.x, at.y, width, height));
  }

  lemma AccentBarInside(slide: Slide, at: Point, width: nat, height: nat)
    requires height >= 18
    ensures Inside(AccentBar(slide, at, width), Box(at.x, at.y, width, height))
  {
  }

  lemma FourInside(a: seq<Stroke>, b: seq<Stroke>, c: seq<Stroke>, d: seq<Stroke>, region: iset<Point>)
    requires Inside(a, region) && Inside(b, region) && Inside(c, region) && Inside(d, region)
    ensures Inside(a + b + c + d, region)
  {
    InsideConcat(a, b, region);
    InsideConcat(a + b, c, region);
    InsideConcat(a + b + c, d, region);
  }

  /** A card that is large enough holds everything that is drawn for its slide, for every seed and element count. */
  lemma CardHoldsItsDrawing(slide: Slide, at: Point, width: nat, height: nat)
    requires width >= 162 && height >= 270
    ensures Inside(CardStrokes(slide, at, width, height), Box(at.x, at.y, width, height))
  {
    PanelInside(at.x, at.y, width, height, WHITE, Color(203, 213, 225, 255));
    AccentBarInside(slide, at, width, height);
    PreviewPanelInside(at, width, height);
    CardPreviewInside(slide, at, width, height);
    FourInside(CardPanel(at, width, height), AccentBar(slide, at, width), PreviewPanel(at, width, height),
               CardPreview(slide, at, width, height), Box(at.x, at.y, width, height));
  }

  ghost function CardRegions(count: nat, resolution: Resolution): seq<iset<Point>> {
    seq(count, i requires 0 <= i < count => Card(count, resolution, i))
  }

  lemma CardSize(count: nat, resolution: Resolution)
    ensures ResolveLayout(count, resolution).cardWidth >= 162 && ResolveLayout(count, resolution).cardHeight >= 270
  {
  }

  lemma SlideInItsCard(slides: seq<Slide>, resolution: Resolution, i: nat)
    requires i < |slides|
    ensures var part := SlideStrokes(slides, ResolveLayout(|slides|, resolution))[i];
            var card := Card(|slides|, resolution, i);
            Inside(part, card) && part != [] && part[0].shape == card
  {
    var layout := ResolveLayout(|slides|, resolution);
    CardSize(|slides|, resolution);
    CardHoldsItsDrawing(slides[i], CardPosition(i, layout), layout.cardWidth, layout.cardHeight);
    PanelFirst(slides[i], CardPosition(i, layout), layout.cardWidth, layout.cardHeight);
  }

  lemma PanelFirst(slide: Slide, at: Point, width: nat, height: nat)
    requires width >= 48 && height >= 176
    ensures CardStrokes(slide, at, width, height) != []
    ensures CardStrokes(slide, at, width, height)[0].shape == Box(at.x, at.y, width, height)
  {
  }

  lemma OneOwner(count: nat, resolution: Resolution, i: nat, p: Point)
    requires i < count && p in Card(count, resolution, i)
    ensures forall j: nat :: j < count && j != i ==> p !in Card(count, resolution, j)
  {
    forall j: nat | j < count && j != i
      ensures p !in Card(count, resolution, j)
    {
      if j > i {
        CardsDisjoint(count, resolution, i, j, p);
      } else if p in Card(count, resolution, j) {
        CardsDisjoint(count, resolution, j, i, p);
      }
    }
  }

  lemma EverySlideInItsCard(slides: seq<Slide>, resolution: Resolution)
    ensures forall j :: 0 <= j < |slides| ==>
              Inside(SlideStrokes(slides, ResolveLayout(|slides|, resolution))[j], CardRegions(|slides|, resolution)[j])
  {
    forall j | 0 <= j < |slides|
      ensures Inside(SlideStrokes(slides, ResolveLayout(|slides|, resolution))[j], CardRegions(|slides|, resolution)[j])
    {
      SlideInItsCard(slides, resolution, j);
    }
  }

  /**
   In the finished image, a pixel of card `i` shows exactly what drawing slide `i` alone leaves there, on
   whatever background.
   */
  lemma EachCardShowsItsOwnSlide(slides: seq<Slide>, resolution: Resolution, i: nat, p: Point, c: int, initial: Byte,
                                 background: Byte)
    requires i < |slides| && p in Card(|slides|, resolution, i)
    ensures var layout := ResolveLayout(|slides|, resolution);
            Final(DocumentStrokes(slides, layout), p, c, initial)
                == Final(SlideStrokes(slides, layout)[i], p, c, background)
  {
    var layout := ResolveLayout(|slides|, resolution);
    EverySlideInItsCard(slides, resolution);
    SlideInItsCard(slides, resolution, i);
    OneOwner(|slides|, resolution, i, p);
    OwnPartOnly(HeaderStrokes(layout), SlideStrokes(slides, layout), CardRegions(|slides|, resolution), i, p, c,
                initial, background);
  }

  /** A pixel of no card shows the header, whatever the slides are. */
  lemma OutsideCardsOnlyHeader(slides: seq<Slide>, resolution: Resolution, p: Point, c: int, initial: Byte)
    requires forall i: nat :: i < |slides| ==> p !in Card(|slides|, resolution, i)
    ensures var layout := ResolveLayout(|slides|, resolution);
            Final(DocumentStrokes(slides, layout), p, c, initial) == Final(HeaderStrokes(layout), p, c, initial)
  {
    var layout := ResolveLayout(|slides|, resolution);
    EverySlideInItsCard(slides, resolution);
    OthersLeaveIt(HeaderStrokes(layout), SlideStrokes(slides, layout), CardRegions(|slides|, resolution), 0, |slides|,
                  p, c, initial);
  }
}
