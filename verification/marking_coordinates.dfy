/** Where on a page the bubbles are read: the ratios and the answer of a page from the
    coordinates of its template, pixel by pixel. */
module MarkingCoordinates {
  import Arithmetic
  import opened Omr
  import opened Marking
  import opened MarkingProofs

  // ----- Squares by coordinates

  /** The first of the pixels that a coordinate falls on. */
  predicate FallsOn(v: real, pixel: int) { pixel as real <= v < pixel as real + 1.0 }

  /** The square of a bubble begins at the pixel of its coordinates: across, as a fraction
      of the width of the page; down, of its height. */
  predicate At(b: Bubble, width: nat, height: nat, s: Square) {
    && s.x >= 0 && FallsOn(b.x * width as real, s.x)
    && s.y >= 0 && FallsOn(b.y * height as real, s.y)
  }

  /** These are the squares of the bubbles, of radius `r`, and all lie on the page. */
  predicate Located(t: Template, qs: seq<Question>, width: nat, height: nat, r: nat, squares: seq<seq<Square>>) {
    && FallsOn(t.bubbleRadius * width as real, r)
    && |squares| == |qs|
    && (forall j :: 0 <= j < |qs| ==> |squares[j]| == |qs[j].bubbles|)
    && (forall j, k :: 0 <= j < |qs| && 0 <= k < |qs[j].bubbles| ==>
          var s := squares[j][k];
          && At(qs[j].bubbles[k], width, height, s)
          && s.side == 2 * r && s.x + s.side <= width && s.y + s.side <= height)
  }

  /** A white pixel of the page under the disc laid over the square. */
  predicate LitUnder(g: Grid, mask: Grid, s: Square, x: int, y: int)
    requires IsMask(mask, s.side)
  {
    && s.x <= x < s.x + s.side && s.y <= y < s.y + s.side
    && 0 <= y < |g| && 0 <= x < |g[y]| && g[y][x] && mask[y - s.y][x - s.x]
  }

  predicate Before(j: int, k: int, j': int, k': int) { j < j' || (j == j' && k < k') }

  /** The disc of no bubble before this one blackens the pixel. */
  ghost predicate Unspoiled(mask: Grid, squares: seq<seq<Square>>, j: nat, k: nat, x: int, y: int)
    requires forall j', k' :: 0 <= j' < |squares| && 0 <= k' < |squares[j']| ==> IsMask(mask, squares[j'][k'].side)
  {
    forall j', k' :: 0 <= j' < |squares| && 0 <= k' < |squares[j']| && Before(j', k', j, k) ==>
      Open(mask, squares[j'][k'], x, y)
  }

  // ----- They are the squares the source reads

  lemma TruncateFallsOn(v: real, pixel: int)
    requires pixel >= 0 && FallsOn(v, pixel)
    ensures Truncate(v) == pixel
  {
  }

  lemma RegionIs(t: Template, b: Bubble, width: nat, height: nat, r: nat, s: Square)
    requires FallsOn(t.bubbleRadius * width as real, r) && At(b, width, height, s) && s.side == 2 * r
    ensures PixelRadius(t, width) == r && BubbleRegion(t, b, width, height) == s
  {
    TruncateFallsOn(t.bubbleRadius * width as real, r);
    TruncateFallsOn(b.x * width as real, s.x);
    TruncateFallsOn(b.y * height as real, s.y);
    hide Truncate, FallsOn;
  }

  lemma RegionsAre(t: Template, qs: seq<Question>, width: nat, height: nat, r: nat, squares: seq<seq<Square>>)
    requires Located(t, qs, width, height, r, squares)
    ensures PixelRadius(t, width) == r
    ensures forall j, k :: 0 <= j < |qs| && 0 <= k < |qs[j].bubbles| ==>
              BubbleRegion(t, qs[j].bubbles[k], width, height) == squares[j][k]
  {
    TruncateFallsOn(t.bubbleRadius * width as real, r);
    forall j, k | 0 <= j < |qs| && 0 <= k < |qs[j].bubbles|
      ensures BubbleRegion(t, qs[j].bubbles[k], width, height) == squares[j][k]
    {
      RegionIs(t, qs[j].bubbles[k], width, height, r, squares[j][k]);
    }
  }

  /** A page on which every bubble is located can be read with a disc of that size. */
  lemma LocatedIsReadable(t: Template, qs: seq<Question>, g: Grid, width: nat, height: nat, mask: Grid, pi: real, r: nat,
                          squares: seq<seq<Square>>)
    requires Located(t, qs, width, height, r, squares) && IsPage(g, width, height) && IsMask(mask, 2 * r) && pi > 0.0
    ensures Readable(t, qs, g, width, height, mask, pi)
  {
    RegionsAre(t, qs, width, height, r, squares);
    hide BubbleRegion, PixelRadius, FallsOn;
  }

  /** Every bubble before another in reading order has its square among the earlier ones. */
  lemma {:induction false} EarlierHas(t: Template, qs: seq<Question>, width: nat, height: nat, j: nat, k: nat, j': nat, k': nat)
    returns (n: nat)
    requires PixelRadius(t, width) >= 0 && Position(qs, j, k)
    requires j' < |qs| && k' < |qs[j'].bubbles| && Before(j', k', j, k)
    decreases j, k
    ensures n < |Earlier(t, qs, width, height, j, k)|
    ensures Earlier(t, qs, width, height, j, k)[n] == BubbleRegion(t, qs[j'].bubbles[k'], width, height)
  {
    hide BubbleRegion, PixelRadius;
    if k > 0 {
      if j' == j && k' == k - 1 {
        return |Earlier(t, qs, width, height, j, k - 1)|;
      }
      n := EarlierHas(t, qs, width, height, j, k - 1, j', k');
    } else {
      n := EarlierHas(t, qs, width, height, j - 1, |qs[j - 1].bubbles|, j', k');
    }
  }

  /** The discs laid before are those of the bubbles before. */
  lemma SpoiledByEarlier(t: Template, qs: seq<Question>, width: nat, height: nat, mask: Grid, r: nat, squares: seq<seq<Square>>,
                         j: nat, k: nat, x: int, y: int)
    requires Located(t, qs, width, height, r, squares) && IsMask(mask, 2 * r) && j < |qs| && k < |qs[j].bubbles|
    requires PixelRadius(t, width) == r
    ensures AllOpen(mask, Earlier(t, qs, width, height, j, k), x, y) <==> Unspoiled(mask, squares, j, k, x, y)
  {
    RegionsAre(t, qs, width, height, r, squares);
    hide BubbleRegion, PixelRadius, Open, IsMask, At, FallsOn;
    var earlier := Earlier(t, qs, width, height, j, k);
    if AllOpen(mask, earlier, x, y) {
      forall j', k' | 0 <= j' < |squares| && 0 <= k' < |squares[j']| && Before(j', k', j, k)
        ensures Open(mask, squares[j'][k'], x, y)
      {
        var n := EarlierHas(t, qs, width, height, j, k, j', k');
        assert Open(mask, earlier[n], x, y);
      }
    }
    if Unspoiled(mask, squares, j, k, x, y) {
      forall n | 0 <= n < |earlier|
        ensures Open(mask, earlier[n], x, y)
      {
        var j', k' := EarlierSquares(t, qs, width, height, j, k, n);
        assert Before(j', k', j, k);
      }
    }
  }

  // ----- The ratios of a page

  /** The white pixels under the disc of a bubble that no earlier disc has blackened. */
  ghost function WhitePixels(g: Grid, mask: Grid, squares: seq<seq<Square>>, j: nat, k: nat): set<(int, int)>
    requires j < |squares| && k < |squares[j]|
    requires forall j', k' :: 0 <= j' < |squares| && 0 <= k' < |squares[j']| ==> IsMask(mask, squares[j'][k'].side)
  {
    var s := squares[j][k];
    set x: int, y: int | s.x <= x < s.x + s.side && s.y <= y < s.y + s.side
                         && LitUnder(g, mask, s, x, y) && Unspoiled(mask, squares, j, k, x, y) :: (x, y)
  }

  /** The share of a disc of radius `r` that `white` pixels leave black; NaN if it has
      no area. */
  predicate IsFill(f: Fill, white: nat, r: nat, pi: real) {
    var area := pi * (r as real * r as real);
    if r == 0 then f.None? else f.Some? && f.value * area == area - white as real
  }

  lemma RatioIsFill(white: nat, r: nat, pi: real)
    requires pi > 0.0
    ensures IsFill(Ratio(white, 2 * r, pi), white, r, pi)
  {
    if r > 0 {
      var area := pi * (r as real * r as real);
      assert (2 * r) as real / 2.0 == r as real;
      PositiveArea(r as real, pi);
      DivideBack(area - white as real, area);
    }
  }

  lemma PositiveArea(r: real, pi: real)
    requires r > 0.0 && pi > 0.0
    ensures pi * (r * r) > 0.0
  {
    assert r * r > 0.0;
  }

  lemma DivideBack(v: real, d: real)
    requires d > 0.0
    ensures v / d * d == v
  {
  }

  /** Each ratio of a page is the black share of its disc: the pixels counted are the white
      ones of the page as it was given, under the disc, which no bubble before it in
      reading order has blackened. */
  lemma RatiosByCoordinates(t: Template, qs: seq<Question>, g: Grid, width: nat, height: nat, mask: Grid, pi: real, r: nat,
                            squares: seq<seq<Square>>, out: seq<seq<Fill>>)
    requires Located(t, qs, width, height, r, squares) && IsMask(mask, 2 * r)
    requires Readable(t, qs, g, width, height, mask, pi) && PageRatios(t, qs, g, width, height, mask, pi, out)
    ensures forall j, k :: 0 <= j < |qs| && 0 <= k < |qs[j].bubbles| ==>
              IsFill(out[j][k], |WhitePixels(g, mask, squares, j, k)|, r, pi)
  {
    RegionsAre(t, qs, width, height, r, squares);
    hide BubbleRegion, PixelRadius, Ratio, IsFill, At, FallsOn;
    forall j, k | 0 <= j < |qs| && 0 <= k < |qs[j].bubbles|
      ensures IsFill(out[j][k], |WhitePixels(g, mask, squares, j, k)|, r, pi)
    {
      WhiteIs(t, qs, g, width, height, mask, r, squares, j, k);
      RatioIsFill(|WhitePixels(g, mask, squares, j, k)|, r, pi);
    }
  }

  lemma WhiteIs(t: Template, qs: seq<Question>, g: Grid, width: nat, height: nat, mask: Grid, r: nat,
                squares: seq<seq<Square>>, j: nat, k: nat)
    requires Located(t, qs, width, height, r, squares) && IsMask(mask, 2 * r) && IsPage(g, width, height)
    requires j < |qs| && k < |qs[j].bubbles| && PixelRadius(t, width) == r
    ensures White(g, width, height, mask, Earlier(t, qs, width, height, j, k), squares[j][k])
            == WhitePixels(g, mask, squares, j, k)
  {
    hide PixelRadius, FallsOn, Earlier;
    var s, earlier := squares[j][k], Earlier(t, qs, width, height, j, k);
    forall x: int, y: int | s.x <= x < s.x + s.side && s.y <= y < s.y + s.side
      ensures g[y][x] && Open(mask, s, x, y) && AllOpen(mask, earlier, x, y)
              <==> LitUnder(g, mask, s, x, y) && Unspoiled(mask, squares, j, k, x, y)
    {
      SpoiledByEarlier(t, qs, width, height, mask, r, squares, j, k, x, y);
      hide Unspoiled, AllOpen;
    }
    hide Unspoiled, AllOpen, LitUnder, Open;
  }

  /** No pixel lies in the squares of two bubbles. */
  predicate Disjoint(squares: seq<seq<Square>>) {
    forall j, k, j', k' | 0 <= j < |squares| && 0 <= k < |squares[j]| && 0 <= j' < |squares| && 0 <= k' < |squares[j']|
                          && (j != j' || k != k') ::
      !Intersect(squares[j][k], squares[j'][k'])
  }

  /** Then the pixels counted for a bubble are simply the white ones under its disc. */
  lemma DisjointPixels(g: Grid, mask: Grid, squares: seq<seq<Square>>, j: nat, k: nat)
    requires Disjoint(squares) && j < |squares| && k < |squares[j]|
    requires forall j', k' :: 0 <= j' < |squares| && 0 <= k' < |squares[j']| ==> IsMask(mask, squares[j'][k'].side)
    ensures var s := squares[j][k];
            WhitePixels(g, mask, squares, j, k)
            == set x: int, y: int | s.x <= x < s.x + s.side && s.y <= y < s.y + s.side && LitUnder(g, mask, s, x, y) :: (x, y)
  {
    var s := squares[j][k];
    forall x: int, y: int | s.x <= x < s.x + s.side && s.y <= y < s.y + s.side
      ensures Unspoiled(mask, squares, j, k, x, y)
    {
      forall j', k' | 0 <= j' < |squares| && 0 <= k' < |squares[j']| && Before(j', k', j, k)
        ensures Open(mask, squares[j'][k'], x, y)
      {
        assert !Intersect(s, squares[j'][k']);
      }
    }
    hide Unspoiled, LitUnder;
  }

  // ----- The answer of a page

  lemma SameFill(f: real, g: real, area: real)
    requires area > 0.0 && f * area == g * area
    ensures f == g
  {
    assert (f - g) * area == 0.0;
  }

  /** A result for a bubble with this ratio. */
  lemma ResultOfFill(f: Fill, white: nat, r: nat, pi: real, confidence: real)
    requires pi > 0.0 && IsFill(f, white, r, pi)
    ensures f == Some(confidence) <==> r > 0 && IsFill(Some(confidence), white, r, pi)
  {
    if r > 0 {
      PositiveArea(r as real, pi);
      var area := pi * (r as real * r as real);
      if IsFill(Some(confidence), white, r, pi) { SameFill(f.value, confidence, area); }
    }
  }

  /** This bubble is read with the confidence. */
  ghost predicate ReadsAs(g: Grid, mask: Grid, squares: seq<seq<Square>>, j: nat, k: int, r: nat, pi: real, confidence: real)
    requires j < |squares|
    requires forall j', k' :: 0 <= j' < |squares| && 0 <= k' < |squares[j']| ==> IsMask(mask, squares[j'][k'].side)
  {
    0 <= k < |squares[j]| && r > 0 && IsFill(Some(confidence), |WhitePixels(g, mask, squares, j, k)|, r, pi)
  }

  /** A bubble is in the answer to its question, with its black share, if and only if that
      share exceeds the minimum. */
  lemma AnswerByCoordinates(t: Template, qs: seq<Question>, g: Grid, width: nat, height: nat, mask: Grid, pi: real, r: nat,
                            squares: seq<seq<Square>>, out: seq<seq<Fill>>, answer: seq<QuestionResult>, j: nat, x: BubbleResult)
    requires Located(t, qs, width, height, r, squares) && IsMask(mask, 2 * r)
    requires Readable(t, qs, g, width, height, mask, pi) && PageRatios(t, qs, g, width, height, mask, pi, out)
    requires Selected(qs, out, t.minimumConfidence, answer) && j < |qs|
    ensures |answer| == |qs| && answer[j].id == qs[j].id
    ensures x in answer[j].selected
            <==> x.confidence > t.minimumConfidence
                 && exists k :: 0 <= k < |qs[j].bubbles| && x.id == qs[j].bubbles[k].id
                                && ReadsAs(g, mask, squares, j, k, r, pi, x.confidence)
  {
    RatiosByCoordinates(t, qs, g, width, height, mask, pi, r, squares, out);
    SelectsExactly(qs[j].bubbles, out[j], t.minimumConfidence, x);
    forall k | 0 <= k < |qs[j].bubbles|
      ensures out[j][k] == Some(x.confidence) <==> ReadsAs(g, mask, squares, j, k, r, pi, x.confidence)
    {
      ResultOfFill(out[j][k], |WhitePixels(g, mask, squares, j, k)|, r, pi, x.confidence);
      hide IsFill, WhitePixels;
    }
    hide WhitePixels, ReadsAs, Readable, At, FallsOn, InPlaceRatio, Select;
  }

  // ----- Which pages are read

  /** The aspect ratio of a page is near that of the template, without division. */
  lemma AspectExactly(t: Template, width: nat, height: nat)
    requires height > 0
    ensures AspectRatioIsTolerable(t, width, height)
            <==> -(height as real) <= 10.0 * (t.aspect * height as real - width as real) <= height as real
  {
    var h, w := height as real, width as real;
    DivideBack(w, h);
    Spread(t.aspect, w / h, h);
    BoundedProduct(t.aspect - w / h, t.aspect * h - w, h);
  }

  lemma BoundedProduct(d: real, v: real, h: real)
    requires h > 0.0 && d * h == v
    ensures -0.1 <= d <= 0.1 <==> -h <= 10.0 * v <= h
  {
    Arithmetic.ScaledOrder(d, 0.1, h);
    Arithmetic.ScaledOrder(-0.1, d, h);
  }

  lemma Spread(a: real, b: real, h: real)
    ensures (a - b) * h == a * h - b * h
  {
  }

  /** Why a page is not read: first its shape, then its type, then a disc of another size
      than its bubbles, if it has any. */
  lemma PageErrorExactly(t: Template, qs: seq<Question>, page: Page, side: nat, r: nat)
    requires page.pixels.Length0 > 0 && FallsOn(t.bubbleRadius * page.pixels.Length1 as real, r)
    ensures var w, h := page.pixels.Length1 as real, page.pixels.Length0 as real;
            var e := PageError(t, qs, page, side);
            if !(-h <= 10.0 * (t.aspect * h - w) <= h) then e == Some(ErrIncompatibleAspect)
            else if page.kind != Binary then e == Some(ErrWrongMatType)
            else if side != 2 * r && (exists j :: 0 <= j < |qs| && |qs[j].bubbles| > 0) then e == Some(ErrOpenCV)
            else e == None
  {
    AspectExactly(t, page.pixels.Length1, page.pixels.Length0);
    TruncateFallsOn(t.bubbleRadius * page.pixels.Length1 as real, r);
    assert PixelRadius(t, page.pixels.Length1) == r;
    BubblesThere(qs);
    hide AspectRatioIsTolerable, FallsOn, Truncate, HasBubble;
  }

  /** Why a page is not binarized: it is empty, or not gray, or OpenCV fails. */
  lemma ScanRefusedExactly(scan: Scanned)
    ensures scan.Refusal() == Some(ErrEmptyMat) <==> scan.empty
    ensures scan.Refusal() == Some(ErrWrongMatType) <==> !scan.empty && (scan.kind == Binary || scan.kind == Unknown)
    ensures scan.Refusal() == Some(ErrOpenCV) <==> !scan.empty && scan.kind == Gray && scan.binarized == None
    ensures scan.Refusal() == None <==> !scan.empty && scan.kind == Gray && scan.binarized != None
  {
  }

  lemma BubblesThere(qs: seq<Question>)
    ensures HasBubble(qs) <==> exists j :: 0 <= j < |qs| && |qs[j].bubbles| > 0
  {
    if j :| 0 <= j < |qs| && |qs[j].bubbles| > 0 { assert qs[j].bubbles != []; }
  }
}
