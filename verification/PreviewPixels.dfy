/**
 What a reader of the exported image sees (src/modules/export/export.service.ts): where the cards stand, and the
 color of every pixel that no preview can reach.
 */
module PreviewPixels {
  import opened Common
  import opened Raster
  import opened Lines
  import opened Preview

  // ----- Where the cards stand -----

  /** The card to the right is 32 pixels away, the one below it 32 pixels, and the margins are 48 pixels wide. */
  lemma CardsInGrid(count: nat, resolution: Resolution, i: nat)
    requires 1 < count && i % 2 == 0
    ensures var layout := ResolveLayout(count, resolution);
            var left, right, below := CardPosition(i, layout), CardPosition(i + 1, layout), CardPosition(i + 2, layout);
            && left.x == 48 && left.y == 224 + i / 2 * 322
            && right == Point(left.x + layout.cardWidth + 32, left.y)
            && right.x + layout.cardWidth + 48 == layout.width
            && below == Point(left.x, left.y + layout.cardHeight + 32)
  {
    var layout := ResolveLayout(count, resolution);
    PositionIn(layout, i, 0, i / 2);
    PositionIn(layout, i + 1, 1, i / 2);
    PositionIn(layout, i + 2, 0, i / 2 + 1);
  }

  lemma PositionIn(layout: Layout, i: nat, column: nat, row: nat)
    requires layout.columns == 2 && layout.gap == 32 && layout.cardHeight == 290 && column < 2 && i == 2 * row + column
    ensures CardPosition(i, layout) == Point(48 + if column == 0 then 0 else layout.cardWidth + 32, 224 + row * 322)
  {
    assert i % 2 == column && i / 2 == row;
  }

  /** A single card takes the whole width between the margins. */
  lemma OneCard(resolution: Resolution)
    ensures var layout := ResolveLayout(1, resolution);
            CardPosition(0, layout) == Point(48, 224) && layout.cardWidth + 96 == layout.width
  {
  }

  /** The image is as high as its last card needs, with 24 pixels below it, but not lower than 900. */
  lemma ImageSize(count: nat, resolution: Resolution)
    ensures var layout := ResolveLayout(count, resolution);
            && layout.width == (match resolution case Standard => 1200 case Hd => 1600 case Ultra => 2200)
            && layout.cardHeight == 290
            && layout.height == if count == 0 then 900
                                else Max(900, CardPosition(count - 1, layout).y + layout.cardHeight + 24)
  {
    if count > 1 {
      assert (count + 1) / 2 == (count - 1) / 2 + 1;
    }
  }

  // ----- Straight lines -----

  lemma HorizontalHolds(x1: int, x2: int, y: int, color: Color, p: Point)
    requires x1 <= p.x <= x2 && p.y == y
    ensures p in LineStroke(x1, y, x2, y, color).shape
  {
    var a, b, k := Point(x1, y), Point(x2, y), p.x - x1;
    assert LineAt(a, b, k) == p;
  }

  lemma VerticalHolds(x: int, y1: int, y2: int, color: Color, p: Point)
    requires y1 <= p.y <= y2 && p.x == x
    ensures p in LineStroke(x, y1, x, y2, color).shape
  {
    var a, b, k := Point(x, y1), Point(x, y2), p.y - y1;
    assert LineAt(a, b, k) == p;
  }

  // ----- Panels -----

  predicate OnFrame(p: Point, x: int, y: int, width: int, height: int) {
    p.x == x || p.x == x + width - 1 || p.y == y || p.y == y + height - 1
  }

  lemma {:induction false} OneColor(strokes: seq<Stroke>, color: Color, p: Point, c: int, initial: Byte)
    requires forall i :: 0 <= i < |strokes| ==> strokes[i].color == color
    ensures (exists i :: 0 <= i < |strokes| && p in strokes[i].shape) ==>
              Final(strokes, p, c, initial) == color.Channel(c)
    ensures (forall i :: 0 <= i < |strokes| ==> p !in strokes[i].shape) ==> Final(strokes, p, c, initial) == initial
    decreases |strokes|
  {
    if strokes != [] {
      OneColor(strokes[..|strokes| - 1], color, p, c, initial);
    }
  }

  lemma FrameHolds(x: int, y: int, width: int, height: int, color: Color, p: Point)
    requires p in Box(x, y, width, height)
    ensures var strokes := RectStrokes(x, y, width, height, color);
            (exists i :: 0 <= i < |strokes| && p in strokes[i].shape) <==> OnFrame(p, x, y, width, height)
  {
    var strokes, right, bottom := RectStrokes(x, y, width, height, color), x + width - 1, y + height - 1;
    if p.y == y {
      HorizontalHolds(x, right, y, color, p);
      assert p in strokes[0].shape;
    } else if p.x == x {
      VerticalHolds(x, y, bottom, color, p);
      assert p in strokes[1].shape;
    } else if p.x == right {
      VerticalHolds(right, y, bottom, color, p);
      assert p in strokes[2].shape;
    } else if p.y == bottom {
      HorizontalHolds(x, right, bottom, color, p);
      assert p in strokes[3].shape;
    } else {
      LineStrokeInside(x, y, right, y, color, x, y, width, 1);
      LineStrokeInside(x, y, x, bottom, color, x, y, 1, height);
      LineStrokeInside(right, y, right, bottom, color, right, y, 1, height);
      LineStrokeInside(x, bottom, right, bottom, color, x, bottom, width, 1);
    }
  }

  /** A panel shows its edge on its frame and its filling inside. */
  lemma PanelShows(x: int, y: int, width: int, height: int, fill: Color, edge: Color, p: Point, c: int, before: Byte)
    requires p in Box(x, y, width, height)
    ensures Final(PanelStrokes(x, y, width, height, fill, edge), p, c, before)
         == (if OnFrame(p, x, y, width, height) then edge else fill).Channel(c)
  {
    var box, frame := [BoxStroke(x, y, width, height, fill)], RectStrokes(x, y, width, height, edge);
    FinalConcat(box, frame, p, c, before);
    FrameHolds(x, y, width, height, edge, p);
    OneColor(frame, edge, p, c, Final(box, p, c, before));
  }

  lemma PanelElsewhere(x: int, y: int, width: int, height: int, fill: Color, edge: Color, p: Point, c: int,
                       before: Byte)
    requires width >= 1 && height >= 1 && p !in Box(x, y, width, height)
    ensures Final(PanelStrokes(x, y, width, height, fill, edge), p, c, before) == before
  {
    PanelInside(x, y, width, height, fill, edge);
    FinalOutside(PanelStrokes(x, y, width, height, fill, edge), Box(x, y, width, height), p, c, before);
  }

  // ----- Cards -----

  /** Where the shapes of a card's preview can be. */
  ghost function PreviewReach(at: Point, width: int, height: int): iset<Point> {
    Reach(at.x + 36, at.y + 164, width - 72, height - 200)
  }

  /**
   A card, as seen: a bar 18 pixels high in the slide's color, a grey frame below it, and in the white card a
   paper-colored panel with its own frame, 24 pixels from the sides and from the bottom, 152 from the top.
   */
  function CardColor(accent: (Byte, Byte, Byte), at: Point, width: int, height: int, p: Point): Color {
    if p.y < at.y + 18 then Color(accent.0, accent.1, accent.2, 255)
    else if OnFrame(p, at.x, at.y, width, height) then Color(203, 213, 225, 255)
    else if at.x + 24 <= p.x < at.x + width - 24 && at.y + 152 <= p.y < at.y + height - 24 then
      if OnFrame(p, at.x + 24, at.y + 152, width - 48, height - 176) then Color(226, 232, 240, 255)
      else Color(248, 250, 252, 255)
    else Color(255, 255, 255, 255)
  }

  lemma BarShows(slide: Slide, at: Point, width: nat, height: nat, p: Point, c: int, before: Byte)
    requires p in Box(at.x, at.y, width, height)
    ensures Final(AccentBar(slide, at, width), p, c, before)
         == if p.y < at.y + 18 then Color(slide.accent.0, slide.accent.1, slide.accent.2, 255).Channel(c) else before
  {
    OneColor(AccentBar(slide, at, width), Color(slide.accent.0, slide.accent.1, slide.accent.2, 255), p, c, before);
    assert AccentBar(slide, at, width)[0].shape == Box(at.x, at.y, width, 18);
  }

  /** Outside the reach of its preview, a card shows exactly these colors. */
  lemma CardShows(slide: Slide, at: Point, width: nat, height: nat, p: Point, c: int, before: Byte)
    requires width >= 162 && height >= 270
    requires p in Box(at.x, at.y, width, height) && p !in PreviewReach(at, width, height)
    ensures Final(CardStrokes(slide, at, width, height), p, c, before)
         == CardColor(slide.accent, at, width, height, p).Channel(c)
  {
    PreviewInside(slide, at.x + 36, at.y + 164, width - 72, height - 200, ShapeCount(slide));
    Layers(CardPanel(at, width, height), AccentBar(slide, at, width), PreviewPanel(at, width, height),
           CardPreview(slide, at, width, height), PreviewReach(at, width, height), p, c, before);
    PanelShows(at.x, at.y, width, height, WHITE, Color(203, 213, 225, 255), p, c, before);
    var panel := Final(CardPanel(at, width, height), p, c, before);
    BarShows(slide, at, width, height, p, c, panel);
    InnerShows(at, width, height, p, c, Final(AccentBar(slide, at, width), p, c, panel));
  }

  /** The layers of a card, one over the other; the last one does not reach the pixel. */
  lemma Layers(a: seq<Stroke>, b: seq<Stroke>, d: seq<Stroke>, e: seq<Stroke>, region: iset<Point>, p: Point, c: int,
               before: Byte)
    requires Inside(e, region) && p !in region
    ensures Final(a + b + d + e, p, c, before) == Final(d, p, c, Final(b, p, c, Final(a, p, c, before)))
  {
    AppendOutside(a + b + d, e, region, p, c, before);
    FinalConcat(a + b, d, p, c, before);
    FinalConcat(a, b, p, c, before);
  }

  lemma InnerShows(at: Point, width: nat, height: nat, p: Point, c: int, before: Byte)
    requires width >= 162 && height >= 270
    ensures Final(PreviewPanel(at, width, height), p, c, before)
         == if at.x + 24 <= p.x < at.x + width - 24 && at.y + 152 <= p.y < at.y + height - 24 then
              (if OnFrame(p, at.x + 24, at.y + 152, width - 48, height - 176) then Color(226, 232, 240, 255)
               else Color(248, 250, 252, 255)).Channel(c)
            else before
  {
    if p in Box(at.x + 24, at.y + 152, width - 48, height - 176) {
      PanelShows(at.x + 24, at.y + 152, width - 48, height - 176, PAPER, Color(226, 232, 240, 255), p, c, before);
    } else {
      PanelElsewhere(at.x + 24, at.y + 152, width - 48, height - 176, PAPER, Color(226, 232, 240, 255), p, c, before);
    }
  }

  // ----- Previews -----

  /** Three to eight shapes: as many as the slide has elements, within these bounds. */
  lemma ShapesCounted(slide: Slide)
    ensures var n := ShapeCount(slide);
            && 3 <= n <= 8 && (3 <= slide.elementCount <= 8 ==> n == slide.elementCount)
            && (slide.elementCount < 3 ==> n == 3) && (slide.elementCount > 8 ==> n == 8)
  {
  }

  /**
   What a shape shows for certain: a bar in the slide's color, the four ends of dark crossed lines, or a blue disc,
   in turn.
   */
  ghost predicate IsShown(shape: Shape, x: int, y: int, width: int, height: int, accent: (Byte, Byte, Byte), p: Point,
                          c: int, shown: Byte)
  {
    var right, bottom := Min(x + width - 1, shape.left + shape.width), Min(y + height - 1, shape.top + shape.height);
    && (shape.kind == 0 && p in Box(shape.left, shape.top, shape.width, shape.height) ==>
          shown == Color(accent.0, accent.1, accent.2, 180).Channel(c))
    && (shape.kind == 1 && p.x in {shape.left, right} && p.y in {shape.top, bottom} ==>
          shown == Color(15, 23, 42, 160).Channel(c))
    && (shape.kind == 2 && p in Disc(shape.left + shape.width / 2, shape.top + shape.height / 2,
                                     Max(8, Min(shape.width, shape.height) / 2)) ==>
          shown == Color(56, 189, 248, 180).Channel(c))
  }

  lemma ShapeShows(shape: Shape, x: int, y: int, width: int, height: int, accent: (Byte, Byte, Byte), p: Point, c: int,
                   before: Byte)
    requires shape.kind < 3
    ensures IsShown(shape, x, y, width, height, accent, p, c,
                    Final(ShapeStrokes(shape, x, y, width, height, accent), p, c, before))
  {
    if shape.kind == 1 {
      CrossShows(shape, x, y, width, height, accent, p, c, before);
    }
  }

  lemma CrossShows(shape: Shape, x: int, y: int, width: int, height: int, accent: (Byte, Byte, Byte), p: Point, c: int,
                   before: Byte)
    requires shape.kind == 1
    ensures var right, bottom := Min(x + width - 1, shape.left + shape.width),
                                 Min(y + height - 1, shape.top + shape.height);
            p.x in {shape.left, right} && p.y in {shape.top, bottom} ==>
              Final(ShapeStrokes(shape, x, y, width, height, accent), p, c, before) == Color(15, 23, 42, 160).Channel(c)
  {
    var right, bottom := Min(x + width - 1, shape.left + shape.width), Min(y + height - 1, shape.top + shape.height);
    var color := Color(15, 23, 42, 160);
    if p.x in {shape.left, right} && p.y in {shape.top, bottom} {
      EndsShow(shape.left, shape.top, right, bottom, color);
      EndsShow(shape.left, bottom, right, shape.top, color);
      CrossCovers(LineStroke(shape.left, shape.top, right, bottom, color),
                  LineStroke(shape.left, bottom, right, shape.top, color), color, p, c, before);
    }
  }

  lemma CrossCovers(first: Stroke, second: Stroke, color: Color, p: Point, c: int, before: Byte)
    requires first.color == color && second.color == color && (p in first.shape || p in second.shape)
    ensures Final([first] + [second], p, c, before) == color.Channel(c)
  {
    FinalConcat([first], [second], p, c, before);
  }

  /** The shape drawn last lies over the others: every shape is the last one of some preview. */
  lemma LastShapeShows(slide: Slide, x: int, y: int, width: int, height: int, n: nat, p: Point, c: int, before: Byte)
    ensures var shape := ShapeOf(slide.seed, n, x, y, width, height);
            shape.kind == n % 3 && IsShown(shape, x, y, width, height, slide.accent, p, c,
                                           Final(PreviewStrokes(slide, x, y, width, height, n + 1), p, c, before))
  {
    var shape, others := ShapeOf(slide.seed, n, x, y, width, height), PreviewStrokes(slide, x, y, width, height, n);
    FinalConcat(others, ShapeStrokes(shape, x, y, width, height, slide.accent), p, c, before);
    ShapeShows(shape, x, y, width, height, slide.accent, p, c, Final(others, p, c, before));
  }

  lemma EndsShow(x1: int, y1: int, x2: int, y2: int, color: Color)
    ensures Point(x1, y1) in LineStroke(x1, y1, x2, y2, color).shape
    ensures Point(x2, y2) in LineStroke(x1, y1, x2, y2, color).shape
  {
    var a, b := Point(x1, y1), Point(x2, y2);
    LineEnds(a, b);
    assert LineAt(a, b, 0) in Line(a, b, Steps(a, b) + 1);
    assert LineAt(a, b, Steps(a, b)) in Line(a, b, Steps(a, b) + 1);
  }

  // ----- Images -----

  /** A dark band, a blue line below it, and paper. */
  lemma HeaderShows(layout: Layout, p: Point, c: int, initial: Byte)
    requires 0 <= p.x < layout.width && 0 <= p.y < layout.height
    ensures Final(HeaderStrokes(layout), p, c, initial)
         == (if p.y < 176 then Color(17, 24, 39, 255)
             else if p.y < 184 then Color(56, 189, 248, 255) else Color(248, 250, 252, 255)).Channel(c)
  {
    var page, band := BoxStroke(0, 0, layout.width, layout.height, PAPER),
                      BoxStroke(0, 0, layout.width, 176, Color(17, 24, 39, 255));
    var line := BoxStroke(0, 176, layout.width, 8, Color(56, 189, 248, 255));
    FinalConcat([page] + [band], [line], p, c, initial);
    FinalConcat([page], [band], p, c, initial);
  }

  /** The pixel is in card `i`, and no shape of its preview can cover it. */
  ghost predicate SeenIn(count: nat, resolution: Resolution, i: nat, p: Point) {
    var layout := ResolveLayout(count, resolution);
    p in Card(count, resolution, i) && p !in PreviewReach(CardPosition(i, layout), layout.cardWidth, layout.cardHeight)
  }

  /** In the finished image: the header, and the cards outside the reach of their previews. */
  lemma ImageShows(slides: seq<Slide>, resolution: Resolution, p: Point, c: int, initial: Byte)
    requires var layout := ResolveLayout(|slides|, resolution); 0 <= p.x < layout.width && 0 <= p.y < layout.height
    ensures var layout := ResolveLayout(|slides|, resolution);
            var shown := Final(DocumentStrokes(slides, layout), p, c, initial);
            && (forall i: nat :: i < |slides| && SeenIn(|slides|, resolution, i, p) ==>
                  shown == CardColor(slides[i].accent, CardPosition(i, layout), layout.cardWidth, 290, p).Channel(c))
            && ((forall i: nat :: i < |slides| ==> p !in Card(|slides|, resolution, i)) ==>
                  shown == (if p.y < 176 then Color(17, 24, 39, 255)
                            else if p.y < 184 then Color(56, 189, 248, 255) else Color(248, 250, 252, 255)).Channel(c))
  {
    var layout := ResolveLayout(|slides|, resolution);
    if forall i: nat :: i < |slides| ==> p !in Card(|slides|, resolution, i) {
      OutsideCardsOnlyHeader(slides, resolution, p, c, initial);
      HeaderShows(layout, p, c, initial);
    }
    forall i: nat | i < |slides| && SeenIn(|slides|, resolution, i, p)
      ensures Final(DocumentStrokes(slides, layout), p, c, initial)
           == CardColor(slides[i].accent, CardPosition(i, layout), layout.cardWidth, 290, p).Channel(c)
    {
      CardSize(|slides|, resolution);
      EachCardShowsItsOwnSlide(slides, resolution, i, p, c, initial, initial);
      CardShows(slides[i], CardPosition(i, layout), layout.cardWidth, layout.cardHeight, p, c, initial);
    }
  }
}
