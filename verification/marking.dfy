/** Reading the bubbles of a page: `RawFillRatios`, `fillRatio` and the selection
    step of `Mark` in internal/omr/mark.go.

    A binarized page is a matrix of pixels, true where white. `fillRatio` ANDs a
    disc into the square of each bubble, in the page itself, before it counts the
    white pixels; so a bubble can change what a later one sees. float64 is `real`;
    pi and the rasterized disc are arguments. */
module Marking {
  import opened Omr

  type Grid = seq<seq<bool>>

  datatype Bubble = Bubble(id: string, x: real, y: real)

  datatype Question = Question(id: string, bubbles: seq<Bubble>)

  datatype Template = Template(aspect: real, bubbleRadius: real, minimumConfidence: real, questions: seq<seq<Question>>)

  datatype Page = Page(kind: MatType, pixels: array2<bool>)

  /** The square region of a bubble: top left corner and side. */
  datatype Square = Square(x: int, y: int, side: nat)

  predicate InSquare(s: Square, x: int, y: int) {
    s.x <= x < s.x + s.side && s.y <= y < s.y + s.side
  }

  predicate IsMask(mask: Grid, side: nat) {
    |mask| == side && forall k :: 0 <= k < side ==> |mask[k]| == side
  }

  /** The disc does not black out this pixel of the page. */
  predicate Open(mask: Grid, s: Square, x: int, y: int)
    requires IsMask(mask, s.side)
  {
    InSquare(s, x, y) ==> mask[y - s.y][x - s.x]
  }

  predicate AllOpen(mask: Grid, squares: seq<Square>, x: int, y: int)
    requires forall k :: 0 <= k < |squares| ==> IsMask(mask, squares[k].side)
  {
    forall k :: 0 <= k < |squares| ==> Open(mask, squares[k], x, y)
  }

  /** int(v) for v >= 0; conversion truncates toward zero. */
  function Truncate(v: real): int {
    if v >= 0.0 then v.Floor else -((-v).Floor)
  }

  function PixelRadius(t: Template, pageWidth: nat): int {
    Truncate(t.bubbleRadius * pageWidth as real)
  }

  function BubbleRegion(t: Template, b: Bubble, width: nat, height: nat): (s: Square)
    requires PixelRadius(t, width) >= 0
    ensures s.side == 2 * PixelRadius(t, width)
  {
    Square(Truncate(b.x * width as real), Truncate(b.y * height as real), 2 * PixelRadius(t, width))
  }

  predicate Inside(s: Square, width: nat, height: nat) {
    0 <= s.x && s.x + s.side <= width && 0 <= s.y && s.y + s.side <= height
  }

  // ----- Specification

  /** The original page as a value. */
  ghost function Snapshot(pixels: array2<bool>): (g: Grid)
    reads pixels
    ensures |g| == pixels.Length0
    ensures forall y, x :: 0 <= y < |g| && 0 <= x < pixels.Length1 ==> |g[y]| == pixels.Length1 && g[y][x] == pixels[y, x]
  {
    seq(pixels.Length0, y requires 0 <= y < pixels.Length0 reads pixels =>
      seq(pixels.Length1, x requires 0 <= x < pixels.Length1 reads pixels => pixels[y, x]))
  }

  predicate IsPage(g: Grid, width: nat, height: nat) {
    |g| == height && forall y :: 0 <= y < height ==> |g[y]| == width
  }

  /** The white pixels counted for a bubble, after discs were applied to the squares
      `earlier` and to its own. */
  ghost function White(g: Grid, width: nat, height: nat, mask: Grid, earlier: seq<Square>, s: Square): set<(int, int)>
    requires IsPage(g, width, height) && Inside(s, width, height) && IsMask(mask, s.side)
    requires forall k :: 0 <= k < |earlier| ==> IsMask(mask, earlier[k].side)
  {
    set x: int, y: int | s.x <= x < s.x + s.side && s.y <= y < s.y + s.side
                         && g[y][x] && Open(mask, s, x, y) && AllOpen(mask, earlier, x, y) :: (x, y)
  }

  /** A fill ratio; none stands for NaN. */
  type Fill = Option<real>

  /** The fill ratio of `white` pixels under a disc of the given side; a disc without
      pixels gives 0 / 0. */
  function Ratio(white: nat, side: nat, pi: real): Fill
    requires pi > 0.0
  {
    if side == 0 then None
    else
      var total := pi * ((side as real / 2.0) * (side as real / 2.0));
      Some((total - white as real) / total)
  }

  // ----- One bubble

  /** `gocv.CountNonZero` of a square region. */
  ghost function Lit(pixels: array2<bool>, s: Square): set<(int, int)>
    requires Inside(s, pixels.Length1, pixels.Length0)
    reads pixels
  {
    set x: int, y: int | s.x <= x < s.x + s.side && s.y <= y < s.y + s.side && pixels[y, x] :: (x, y)
  }

  method CountNonZero(pixels: array2<bool>, s: Square) returns (n: nat)
    requires Inside(s, pixels.Length1, pixels.Length0)
    ensures n == |Lit(pixels, s)|
  {
    n := 0;
    ghost var seen: set<(int, int)> := {};
    for y := s.y to s.y + s.side
      invariant seen == set p | p in Lit(pixels, s) && p.1 < y
      invariant n == |seen|
    {
      for x := s.x to s.x + s.side
        invariant seen == set p | p in Lit(pixels, s) && (p.1 < y || (p.1 == y && p.0 < x))
        invariant n == |seen|
      {
        if pixels[y, x] {
          assert (x, y) !in seen;
          seen := seen + {(x, y)};
          n := n + 1;
        }
      }
    }
    assert seen == Lit(pixels, s);
  }

  /** `gocv.BitwiseAnd` of a region of the page with the mask, into the region. */
  method BitwiseAnd(pixels: array2<bool>, s: Square, mask: Grid)
    requires Inside(s, pixels.Length1, pixels.Length0) && IsMask(mask, s.side)
    modifies pixels
    ensures forall y, x :: 0 <= y < pixels.Length0 && 0 <= x < pixels.Length1
              ==> pixels[y, x] == (old(pixels[y, x]) && Open(mask, s, x, y))
  {
    forall y, x | s.y <= y < s.y + s.side && s.x <= x < s.x + s.side {
      pixels[y, x] := pixels[y, x] && mask[y - s.y][x - s.x];
    }
  }

  /** The page is the original with discs applied to these squares. */
  ghost predicate Applied(pixels: array2<bool>, g: Grid, mask: Grid, squares: seq<Square>)
    requires forall k :: 0 <= k < |squares| ==> IsMask(mask, squares[k].side)
    reads pixels
  {
    && IsPage(g, pixels.Length1, pixels.Length0)
    && forall y, x :: 0 <= y < pixels.Length0 && 0 <= x < pixels.Length1
         ==> pixels[y, x] == (g[y][x] && AllOpen(mask, squares, x, y))
  }

  method FillRatio(pixels: array2<bool>, s: Square, mask: Grid, pi: real, ghost g: Grid, ghost earlier: seq<Square>)
    returns (r: Result<Fill, Error>)
    requires Inside(s, pixels.Length1, pixels.Length0) && pi > 0.0 && IsMask(mask, |mask|)
    requires forall k :: 0 <= k < |earlier| ==> IsMask(mask, earlier[k].side)
    requires Applied(pixels, g, mask, earlier)
    modifies pixels
    ensures s.side != |mask| ==> r == Failure(ErrOpenCV) && Applied(pixels, g, mask, earlier)
    ensures s.side == |mask| ==>
              && Applied(pixels, g, mask, earlier + [s])
              && r == Success(Ratio(|White(g, pixels.Length1, pixels.Length0, mask, earlier, s)|, |mask|, pi))
  {
    if s.side != |mask| {
      return Failure(ErrOpenCV);
    }
    BitwiseAnd(pixels, s, mask);
    var white := CountNonZero(pixels, s);
    assert forall x, y :: AllOpen(mask, earlier + [s], x, y) <==> AllOpen(mask, earlier, x, y) && Open(mask, s, x, y) by {
      AllOpenGrows(mask, earlier, s);
    }
    assert Lit(pixels, s) == White(g, pixels.Length1, pixels.Length0, mask, earlier, s);
    r := Success(Ratio(white, |mask|, pi));
  }

  lemma AllOpenGrows(mask: Grid, earlier: seq<Square>, s: Square)
    requires IsMask(mask, s.side) && forall k :: 0 <= k < |earlier| ==> IsMask(mask, earlier[k].side)
    ensures forall x, y :: AllOpen(mask, earlier + [s], x, y) <==> AllOpen(mask, earlier, x, y) && Open(mask, s, x, y)
  {
    forall x, y
      ensures AllOpen(mask, earlier + [s], x, y) <==> AllOpen(mask, earlier, x, y) && Open(mask, s, x, y)
    {
      var all := earlier + [s];
      assert all[|earlier|] == s && forall k :: 0 <= k < |earlier| ==> all[k] == earlier[k];
    }
  }

  // ----- One page

  /** Every bubble of the page lies inside it. */
  predicate WellPlaced(t: Template, qs: seq<Question>, width: nat, height: nat) {
    && PixelRadius(t, width) >= 0
    && forall j, k :: 0 <= j < |qs| && 0 <= k < |qs[j].bubbles| ==>
         Inside(BubbleRegion(t, qs[j].bubbles[k], width, height), width, height)
  }

  predicate Position(qs: seq<Question>, j: nat, k: nat) {
    (j < |qs| && k <= |qs[j].bubbles|) || (j == |qs| && k == 0)
  }

  /** The squares read before bubble `k` of question `j`, in order. */
  function Earlier(t: Template, qs: seq<Question>, width: nat, height: nat, j: nat, k: nat): (r: seq<Square>)
    requires PixelRadius(t, width) >= 0 && Position(qs, j, k)
    ensures forall n :: 0 <= n < |r| ==> r[n].side == 2 * PixelRadius(t, width)
    decreases j, k
  {
    if k > 0 then Earlier(t, qs, width, height, j, k - 1) + [BubbleRegion(t, qs[j].bubbles[k - 1], width, height)]
    else if j > 0 then Earlier(t, qs, width, height, j - 1, |qs[j - 1].bubbles|)
    else []
  }

  /** A page whose bubbles have the size of the mask. */
  predicate Readable(t: Template, qs: seq<Question>, g: Grid, width: nat, height: nat, mask: Grid, pi: real) {
    && WellPlaced(t, qs, width, height) && IsPage(g, width, height) && pi > 0.0
    && IsMask(mask, |mask|) && 2 * PixelRadius(t, width) == |mask|
  }

  /** The ratio of a bubble when the page has been changed by those before it. */
  ghost function InPlaceRatio(t: Template, qs: seq<Question>, g: Grid, width: nat, height: nat, mask: Grid, pi: real,
                              j: nat, k: nat): Fill
    requires Readable(t, qs, g, width, height, mask, pi) && j < |qs| && k < |qs[j].bubbles|
  {
    Ratio(|White(g, width, height, mask, Earlier(t, qs, width, height, j, k),
                 BubbleRegion(t, qs[j].bubbles[k], width, height))|, |mask|, pi)
  }

  /** The ratio of a bubble on the page as it was given. */
  ghost function PureRatio(t: Template, qs: seq<Question>, g: Grid, width: nat, height: nat, mask: Grid, pi: real,
                           j: nat, k: nat): Fill
    requires Readable(t, qs, g, width, height, mask, pi) && j < |qs| && k < |qs[j].bubbles|
  {
    Ratio(|White(g, width, height, mask, [], BubbleRegion(t, qs[j].bubbles[k], width, height))|, |mask|, pi)
  }

  /** The ratios of all bubbles of a page, computed in place. */
  ghost predicate PageRatios(t: Template, qs: seq<Question>, g: Grid, width: nat, height: nat, mask: Grid, pi: real,
                             out: seq<seq<Fill>>)
    requires Readable(t, qs, g, width, height, mask, pi)
  {
    && |out| == |qs|
    && (forall j :: 0 <= j < |qs| ==> |out[j]| == |qs[j].bubbles|)
    && (forall j, k :: 0 <= j < |qs| && 0 <= k < |qs[j].bubbles| ==>
          out[j][k] == InPlaceRatio(t, qs, g, width, height, mask, pi, j, k))
  }

  method FillPage(t: Template, qs: seq<Question>, pixels: array2<bool>, mask: Grid, pi: real)
    returns (r: Result<seq<seq<Fill>>, Error>)
    requires WellPlaced(t, qs, pixels.Length1, pixels.Length0) && pi > 0.0 && IsMask(mask, |mask|)
    modifies pixels
    ensures 2 * PixelRadius(t, pixels.Length1) == |mask| ==>
              r.Success? && PageRatios(t, qs, old(Snapshot(pixels)), pixels.Length1, pixels.Length0, mask, pi, r.value)
    ensures 2 * PixelRadius(t, pixels.Length1) != |mask| ==>
              if exists j :: 0 <= j < |qs| && qs[j].bubbles != [] then r == Failure(ErrOpenCV)
              else r.Success? && |r.value| == |qs| && forall j :: 0 <= j < |qs| ==> r.value[j] == []
  {
    hide White, Ratio, BubbleRegion, IsMask;
    var w, h := pixels.Length1, pixels.Length0;
    ghost var g := Snapshot(pixels);
    ghost var sized := 2 * PixelRadius(t, w) == |mask|;
    var out: seq<seq<Fill>> := [];
    for j := 0 to |qs|
      invariant |out| == j && forall j' :: 0 <= j' < j ==> |out[j']| == |qs[j'].bubbles|
      invariant sized ==> Applied(pixels, g, mask, Earlier(t, qs, w, h, j, 0))
      invariant sized ==> forall j', k' :: 0 <= j' < j && 0 <= k' < |qs[j'].bubbles| ==>
                            out[j'][k'] == InPlaceRatio(t, qs, g, w, h, mask, pi, j', k')
      invariant !sized ==> Applied(pixels, g, mask, []) && forall j' :: 0 <= j' < j ==> qs[j'].bubbles == []
    {
      var row: seq<Fill> := [];
      for k := 0 to |qs[j].bubbles|
        invariant |row| == k
        invariant sized ==> Applied(pixels, g, mask, Earlier(t, qs, w, h, j, k))
        invariant sized ==> forall k' :: 0 <= k' < k ==> row[k'] == InPlaceRatio(t, qs, g, w, h, mask, pi, j, k')
        invariant !sized ==> Applied(pixels, g, mask, []) && k == 0
      {
        var s := BubbleRegion(t, qs[j].bubbles[k], w, h);
        ghost var earlier := if sized then Earlier(t, qs, w, h, j, k) else [];
        var fr := FillRatio(pixels, s, mask, pi, g, earlier);
        if fr.Failure? {
          return Failure(fr.error);
        }
        row := row + [fr.value];
      }
      out := out + [row];
    }
    r := Success(out);
  }

  // ----- All pages

  predicate AspectRatioIsTolerable(t: Template, width: nat, height: nat)
    requires height > 0
  {
    -TOLERABLE_ASPECT_RATIO_DIFFERENCE <= t.aspect - width as real / height as real <= TOLERABLE_ASPECT_RATIO_DIFFERENCE
  }

  predicate HasBubble(qs: seq<Question>) { exists j :: 0 <= j < |qs| && qs[j].bubbles != [] }

  /** Why a page stops the reading, if it does. */
  function PageError(t: Template, qs: seq<Question>, page: Page, side: nat): Option<Error>
    requires page.pixels.Length0 > 0
  {
    if !AspectRatioIsTolerable(t, page.pixels.Length1, page.pixels.Length0) then Some(ErrIncompatibleAspect)
    else if page.kind != Binary then Some(ErrWrongMatType)
    else if 2 * PixelRadius(t, page.pixels.Length1) != side && HasBubble(qs) then Some(ErrOpenCV)
    else None
  }

  ghost function Arrays(pages: seq<Page>): set<array2<bool>> {
    set k | 0 <= k < |pages| :: pages[k].pixels
  }

  /** The pages as they were given. */
  ghost function Snapshots(pages: seq<Page>): (gs: seq<Grid>)
    reads Arrays(pages)
    ensures |gs| == |pages|
    ensures forall i :: 0 <= i < |pages| ==> gs[i] == Snapshot(pages[i].pixels)
  {
    seq(|pages|, i requires 0 <= i < |pages| reads Arrays(pages) => Snapshot(pages[i].pixels))
  }

  /** What the reading of a page that is not refused returns. */
  ghost predicate PageRead(t: Template, qs: seq<Question>, page: Page, g: Grid, mask: Grid, pi: real,
                           out: seq<seq<Fill>>)
    requires WellPlaced(t, qs, page.pixels.Length1, page.pixels.Length0)
             && IsPage(g, page.pixels.Length1, page.pixels.Length0)
    requires pi > 0.0 && IsMask(mask, |mask|)
  {
    var w, h := page.pixels.Length1, page.pixels.Length0;
    if 2 * PixelRadius(t, w) == |mask| then PageRatios(t, qs, g, w, h, mask, pi, out)
    else |out| == |qs| && forall j :: 0 <= j < |qs| ==> out[j] == [] && qs[j].bubbles == []
  }

  /** Pages, template and disc that the source can work on without a panic. */
  predicate Workable(t: Template, pages: seq<Page>, disc: nat -> Grid) {
    && (forall i, j :: 0 <= i < j < |pages| ==> pages[i].pixels != pages[j].pixels)
    && (forall i :: 0 <= i < |pages| ==> pages[i].pixels.Length0 > 0)
    && (|pages| == |t.questions| ==>
          && |pages| > 0
          && PixelRadius(t, pages[0].pixels.Length1) >= 0
          && IsMask(disc(PixelRadius(t, pages[0].pixels.Length1)), 2 * PixelRadius(t, pages[0].pixels.Length1))
          && forall i :: 0 <= i < |pages| ==> WellPlaced(t, t.questions[i], pages[i].pixels.Length1, pages[i].pixels.Length0))
  }

  method RawFillRatios(t: Template, pages: seq<Page>, disc: nat -> Grid, pi: real)
    returns (r: Result<seq<seq<seq<Fill>>>, Error>)
    requires pi > 0.0 && Workable(t, pages, disc)
    modifies Arrays(pages)
    ensures |pages| != |t.questions| ==> r == Failure(ErrIncompatiblePageCount)
    ensures |pages| == |t.questions| ==>
              var mask := disc(PixelRadius(t, pages[0].pixels.Length1));
              match r
              case Success(out) =>
                && |out| == |pages|
                && forall i :: 0 <= i < |pages| ==>
                     && PageError(t, t.questions[i], pages[i], |mask|).None?
                     && PageRead(t, t.questions[i], pages[i], old(Snapshots(pages))[i], mask, pi, out[i])
              case Failure(e) =>
                exists i :: 0 <= i < |pages| && PageError(t, t.questions[i], pages[i], |mask|) == Some(e)
                            && forall m :: 0 <= m < i ==> PageError(t, t.questions[m], pages[m], |mask|).None?
  {
    if |pages| != |t.questions| {
      return Failure(ErrIncompatiblePageCount);
    }
    ghost var gs := Snapshots(pages);
    var mask := disc(PixelRadius(t, pages[0].pixels.Length1));
    var out: seq<seq<seq<Fill>>> := [];
    for i := 0 to |pages|
      invariant |out| == i
      invariant forall m :: i <= m < |pages| ==> Snapshot(pages[m].pixels) == gs[m]
      invariant forall m :: 0 <= m < i ==>
                  && PageError(t, t.questions[m], pages[m], |mask|).None?
                  && PageRead(t, t.questions[m], pages[m], gs[m], mask, pi, out[m])
    {
      hide PageRatios, Applied, IsMask;
      var page, qs := pages[i], t.questions[i];
      if !AspectRatioIsTolerable(t, page.pixels.Length1, page.pixels.Length0) {
        return Failure(ErrIncompatibleAspect);
      }
      if page.kind != Binary {
        return Failure(ErrWrongMatType);
      }
      var ratios := FillPage(t, qs, page.pixels, mask, pi);
      if ratios.Failure? {
        return Failure(ratios.error);
      }
      assert PageError(t, qs, page, |mask|).None?;
      assert PageRead(t, qs, page, gs[i], mask, pi, ratios.value);
      out := out + [ratios.value];
    }
    r := Success(out);
  }

  // ----- Selection

  datatype BubbleResult = BubbleResult(id: string, confidence: real)

  datatype QuestionResult = QuestionResult(id: string, selected: seq<BubbleResult>)

  /** `f > minimum`, which is false of NaN. */
  predicate Above(f: Fill, minimum: real) { f.Some? && f.value > minimum }

  /** The bubbles of a question above the minimum, in order. */
  function Select(bubbles: seq<Bubble>, ratios: seq<Fill>, minimum: real): seq<BubbleResult>
    requires |bubbles| == |ratios|
  {
    if bubbles == [] then []
    else
      var n := |bubbles| - 1;
      var selected := Select(bubbles[..n], ratios[..n], minimum);
      if Above(ratios[n], minimum) then selected + [BubbleResult(bubbles[n].id, ratios[n].value)] else selected
  }

  /** A ratio for every bubble. */
  predicate Shaped(qs: seq<Question>, ratios: seq<seq<Fill>>) {
    |qs| == |ratios| && forall j :: 0 <= j < |qs| ==> |ratios[j]| == |qs[j].bubbles|
  }

  /** Every question with its selected bubbles. */
  predicate Selected(qs: seq<Question>, ratios: seq<seq<Fill>>, minimum: real, r: seq<QuestionResult>) {
    && Shaped(qs, ratios) && |r| == |qs|
    && forall j :: 0 <= j < |qs| ==> r[j] == QuestionResult(qs[j].id, Select(qs[j].bubbles, ratios[j], minimum))
  }

  /** The third step of `Mark`, for one page. */
  method SelectPage(qs: seq<Question>, ratios: seq<seq<Fill>>, minimum: real) returns (r: seq<QuestionResult>)
    requires Shaped(qs, ratios)
    ensures Selected(qs, ratios, minimum, r)
  {
    r := [];
    for j := 0 to |qs|
      invariant |r| == j
      invariant forall j' :: 0 <= j' < j ==> r[j'] == QuestionResult(qs[j'].id, Select(qs[j'].bubbles, ratios[j'], minimum))
    {
      var selected: seq<BubbleResult> := [];
      for k := 0 to |ratios[j]|
        invariant selected == Select(qs[j].bubbles[..k], ratios[j][..k], minimum)
      {
        assert qs[j].bubbles[..k + 1][..k] == qs[j].bubbles[..k] && ratios[j][..k + 1][..k] == ratios[j][..k];
        if ratios[j][k].Some? && ratios[j][k].value > minimum {
          selected := selected + [BubbleResult(qs[j].bubbles[k].id, ratios[j][k].value)];
        }
      }
      assert qs[j].bubbles[..|qs[j].bubbles|] == qs[j].bubbles && ratios[j][..|ratios[j]|] == ratios[j];
      r := r + [QuestionResult(qs[j].id, selected)];
    }
  }

  /** The third step of `Mark`, for all pages. */
  method SelectPages(questions: seq<seq<Question>>, ratios: seq<seq<seq<Fill>>>, minimum: real)
    returns (out: seq<seq<QuestionResult>>)
    requires |questions| == |ratios| && forall i :: 0 <= i < |questions| ==> Shaped(questions[i], ratios[i])
    ensures |out| == |questions| && forall i :: 0 <= i < |questions| ==> Selected(questions[i], ratios[i], minimum, out[i])
  {
    hide Shaped, Selected;
    out := [];
    for i := 0 to |questions|
      invariant |out| == i
      invariant forall m :: 0 <= m < i ==> Selected(questions[m], ratios[m], minimum, out[m])
    {
      var page := SelectPage(questions[i], ratios[i], minimum);
      out := out + [page];
    }
  }

  /** What marking binarized pages returns: the selection from their ratios, or the
      error of a page. `gs` are the pages as they were given. */
  ghost predicate Marked(t: Template, pages: seq<Page>, gs: seq<Grid>, disc: nat -> Grid, pi: real,
                         ratios: Result<seq<seq<seq<Fill>>>, Error>, r: Result<seq<seq<QuestionResult>>, Error>)
    requires pi > 0.0 && Workable(t, pages, disc) && |gs| == |pages|
    requires forall i :: 0 <= i < |pages| ==> IsPage(gs[i], pages[i].pixels.Length1, pages[i].pixels.Length0)
  {
    if |pages| != |t.questions| then r == Failure(ErrIncompatiblePageCount)
    else
      var mask := disc(PixelRadius(t, pages[0].pixels.Length1));
      match ratios
      case Failure(e) =>
        && r == Failure(e)
        && exists i :: 0 <= i < |pages| && PageError(t, t.questions[i], pages[i], |mask|) == Some(e)
                       && forall m :: 0 <= m < i ==> PageError(t, t.questions[m], pages[m], |mask|).None?
      case Success(out) =>
        && r.Success? && |r.value| == |out| == |pages|
        && forall i :: 0 <= i < |pages| ==>
             && PageError(t, t.questions[i], pages[i], |mask|).None?
             && PageRead(t, t.questions[i], pages[i], gs[i], mask, pi, out[i])
             && Selected(t.questions[i], out[i], t.minimumConfidence, r.value[i])
  }

  /** The second and third step of `Mark`. */
  method MarkBinarized(t: Template, pages: seq<Page>, disc: nat -> Grid, pi: real)
    returns (r: Result<seq<seq<QuestionResult>>, Error>, ghost ratios: Result<seq<seq<seq<Fill>>>, Error>)
    requires pi > 0.0 && Workable(t, pages, disc)
    modifies Arrays(pages)
    ensures Marked(t, pages, old(Snapshots(pages)), disc, pi, ratios, r)
  {
    var fillRatios := RawFillRatios(t, pages, disc, pi);
    ratios := fillRatios;
    if fillRatios.Failure? {
      return Failure(fillRatios.error), ratios;
    }
    hide Snapshots, Selected, IsMask;
    assert forall i :: 0 <= i < |pages| ==> Shaped(t.questions[i], fillRatios.value[i]);
    hide PageRead, Shaped;
    var out := SelectPages(t.questions, fillRatios.value, t.minimumConfidence);
    r := Success(out);
  }

  /** A page as it is scanned, and what OpenCV makes of it: its binarized pixels, or an error. */
  datatype Scanned = Scanned(empty: bool, kind: MatType, binarized: Option<array2<bool>>) {
    function Refusal(): Option<Error> {
      if empty then Some(ErrEmptyMat)
      else if kind != Gray then Some(ErrWrongMatType)
      else if binarized.None? then Some(ErrOpenCV)
      else None
    }
  }

  predicate AllBinarized(scans: seq<Scanned>) {
    forall i :: 0 <= i < |scans| ==> scans[i].Refusal().None?
  }

  function Binarized(scans: seq<Scanned>): (pages: seq<Page>)
    requires AllBinarized(scans)
    ensures |pages| == |scans| && forall i :: 0 <= i < |scans| ==> pages[i] == Page(Binary, scans[i].binarized.value)
  {
    seq(|scans|, i requires 0 <= i < |scans| => Page(Binary, scans[i].binarized.value))
  }

  /** `CloseAll`, on pages known by their positions. */
  method CloseAll(n: nat) returns (closed: set<nat>)
    ensures forall k :: k in closed <==> 0 <= k < n
  {
    closed := {};
    for k := 0 to n
      invariant forall j :: j in closed <==> 0 <= j < k
    {
      closed := closed + {k};
    }
  }

  /** `Mark`: the first page that cannot be binarized decides the error, before the pages
      are even counted. However it ends every page is closed. */
  method Mark(t: Template, scans: seq<Scanned>, disc: nat -> Grid, pi: real)
    returns (r: Result<seq<seq<QuestionResult>>, Error>, closed: set<nat>, ghost ratios: Result<seq<seq<seq<Fill>>>, Error>)
    requires pi > 0.0 && (AllBinarized(scans) ==> Workable(t, Binarized(scans), disc))
    modifies if AllBinarized(scans) then Arrays(Binarized(scans)) else {}
    ensures forall k :: k in closed <==> 0 <= k < |scans|
    ensures if AllBinarized(scans) then Marked(t, Binarized(scans), old(Snapshots(Binarized(scans))), disc, pi, ratios, r)
            else exists i :: 0 <= i < |scans| && r.Failure? && scans[i].Refusal() == Some(r.error)
                             && forall k :: 0 <= k < i ==> scans[k].Refusal().None?
  {
    ratios := Failure(ErrOpenCV);
    var refusal: Option<Error> := None;
    var i := 0;
    while i < |scans| && refusal.None?
      invariant i <= |scans| && (refusal.None? ==> forall k :: 0 <= k < i ==> scans[k].Refusal().None?)
      invariant refusal.Some? ==> i > 0 && scans[i - 1].Refusal() == refusal
                                  && forall k :: 0 <= k < i - 1 ==> scans[k].Refusal().None?
    {
      refusal := scans[i].Refusal();
      i := i + 1;
    }
    if refusal.Some? {
      r := Failure(refusal.value);
    } else {
      r, ratios := MarkBinarized(t, Binarized(scans), disc, pi);
    }
    hide Marked;
    closed := CloseAll(|scans|);
  }
}
