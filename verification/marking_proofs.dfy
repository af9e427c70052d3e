/** In-place reading against reading the unmodified page. */
module MarkingProofs {
  import opened Permutations
  import opened Marking

  /** A ratio is at least another, or both are NaN. */
  predicate AtLeast(f: Fill, g: Fill) {
    (f.None? && g.None?) || (f.Some? && g.Some? && f.value >= g.value)
  }

  /** Fewer white pixels never lower the ratio, and equal ratios of a disc that has
      pixels mean equal counts. */
  lemma RatioFalls(few: nat, many: nat, side: nat, pi: real)
    requires few <= many && pi > 0.0
    ensures AtLeast(Ratio(few, side, pi), Ratio(many, side, pi))
    ensures side > 0 ==> (Ratio(few, side, pi) == Ratio(many, side, pi) <==> few == many)
  {
    if side > 0 {
      var half := side as real / 2.0;
      var total := pi * (half * half);
      assert half * half > 0.0 && total > 0.0;
      DivideBoth(total - many as real, total - few as real, total);
    }
  }

  lemma DivideBoth(x: real, y: real, d: real)
    requires x <= y && d > 0.0
    ensures x / d <= y / d && (x / d == y / d <==> x == y)
  {
    assert x / d * d == x && y / d * d == y;
    SignOfProduct(y / d - x / d, d);
  }

  lemma SignOfProduct(q: real, d: real)
    requires d > 0.0
    ensures (q * d >= 0.0 <==> q >= 0.0) && (q * d == 0.0 <==> q == 0.0)
  {
  }

  /** No white pixel under the disc of this bubble was blackened by an earlier one. */
  ghost predicate Spared(g: Grid, mask: Grid, earlier: seq<Square>, s: Square)
    requires IsMask(mask, s.side) && forall k :: 0 <= k < |earlier| ==> IsMask(mask, earlier[k].side)
    requires forall x, y :: InSquare(s, x, y) ==> 0 <= y < |g| && 0 <= x < |g[y]|
  {
    forall x, y :: InSquare(s, x, y) && g[y][x] && Open(mask, s, x, y) ==> AllOpen(mask, earlier, x, y)
  }

  /** The ratio read in place is at least the pure one, and equal to it exactly when
      the white pixels of the bubble were spared. */
  lemma InPlaceAgainstPure(t: Template, qs: seq<Question>, g: Grid, width: nat, height: nat, mask: Grid, pi: real,
                           j: nat, k: nat)
    requires Readable(t, qs, g, width, height, mask, pi) && j < |qs| && k < |qs[j].bubbles|
    ensures AtLeast(InPlaceRatio(t, qs, g, width, height, mask, pi, j, k), PureRatio(t, qs, g, width, height, mask, pi, j, k))
    ensures InPlaceRatio(t, qs, g, width, height, mask, pi, j, k) == PureRatio(t, qs, g, width, height, mask, pi, j, k)
            <==> Spared(g, mask, Earlier(t, qs, width, height, j, k), BubbleRegion(t, qs[j].bubbles[k], width, height))
  {
    var s := BubbleRegion(t, qs[j].bubbles[k], width, height);
    var earlier := Earlier(t, qs, width, height, j, k);
    var inPlace, pure := White(g, width, height, mask, earlier, s), White(g, width, height, mask, [], s);
    assert Inside(s, width, height);
    SubsetCardinality(inPlace, pure);
    RatioFalls(|inPlace|, |pure|, |mask|, pi);
    WhiteEqual(g, width, height, mask, earlier, s);
  }

  lemma WhiteEqual(g: Grid, width: nat, height: nat, mask: Grid, earlier: seq<Square>, s: Square)
    requires IsPage(g, width, height) && Inside(s, width, height) && IsMask(mask, s.side)
    requires forall k :: 0 <= k < |earlier| ==> IsMask(mask, earlier[k].side)
    ensures White(g, width, height, mask, earlier, s) == White(g, width, height, mask, [], s)
            <==> Spared(g, mask, earlier, s)
  {
    var inPlace, pure := White(g, width, height, mask, earlier, s), White(g, width, height, mask, [], s);
    if inPlace == pure {
      forall x, y | InSquare(s, x, y) && g[y][x] && Open(mask, s, x, y)
        ensures AllOpen(mask, earlier, x, y)
      {
        assert (x, y) in pure;
      }
    }
  }

  predicate Intersect(a: Square, b: Square) {
    a.x < b.x + b.side && b.x < a.x + a.side && a.y < b.y + b.side && b.y < a.y + a.side
  }

  /** No two bubbles of the page have squares that overlap. */
  ghost predicate DisjointBubbles(t: Template, qs: seq<Question>, width: nat, height: nat)
    requires PixelRadius(t, width) >= 0
  {
    forall j, k, j', k' | 0 <= j < |qs| && 0 <= k < |qs[j].bubbles| && 0 <= j' < |qs| && 0 <= k' < |qs[j'].bubbles|
                          && (j != j' || k != k') ::
      !Intersect(BubbleRegion(t, qs[j].bubbles[k], width, height), BubbleRegion(t, qs[j'].bubbles[k'], width, height))
  }

  /** The squares read earlier are those of the bubbles before in reading order. */
  lemma {:induction false} EarlierSquares(t: Template, qs: seq<Question>, width: nat, height: nat, j: nat, k: nat,
                                          n: nat)
    returns (j': nat, k': nat)
    requires PixelRadius(t, width) >= 0 && Position(qs, j, k) && n < |Earlier(t, qs, width, height, j, k)|
    decreases j, k
    ensures j' < |qs| && k' < |qs[j'].bubbles| && (j' < j || (j' == j && k' < k))
    ensures Earlier(t, qs, width, height, j, k)[n] == BubbleRegion(t, qs[j'].bubbles[k'], width, height)
  {
    if k > 0 {
      if n == |Earlier(t, qs, width, height, j, k - 1)| {
        return j, k - 1;
      }
      j', k' := EarlierSquares(t, qs, width, height, j, k - 1, n);
    } else {
      j', k' := EarlierSquares(t, qs, width, height, j - 1, |qs[j - 1].bubbles|, n);
    }
  }

  /** With disjoint bubbles, reading in place is reading the unmodified page. */
  lemma DisjointReadsPure(t: Template, qs: seq<Question>, g: Grid, width: nat, height: nat, mask: Grid, pi: real,
                          out: seq<seq<Fill>>)
    requires Readable(t, qs, g, width, height, mask, pi) && DisjointBubbles(t, qs, width, height)
    requires PageRatios(t, qs, g, width, height, mask, pi, out)
    ensures forall j, k :: 0 <= j < |qs| && 0 <= k < |qs[j].bubbles| ==>
              out[j][k] == PureRatio(t, qs, g, width, height, mask, pi, j, k)
  {
    forall j, k | 0 <= j < |qs| && 0 <= k < |qs[j].bubbles|
      ensures out[j][k] == PureRatio(t, qs, g, width, height, mask, pi, j, k)
    {
      DisjointSpares(t, qs, g, width, height, mask, pi, j, k);
      InPlaceAgainstPure(t, qs, g, width, height, mask, pi, j, k);
    }
  }

  lemma DisjointSpares(t: Template, qs: seq<Question>, g: Grid, width: nat, height: nat, mask: Grid, pi: real,
                       j: nat, k: nat)
    requires Readable(t, qs, g, width, height, mask, pi) && DisjointBubbles(t, qs, width, height)
    requires j < |qs| && k < |qs[j].bubbles|
    ensures Inside(BubbleRegion(t, qs[j].bubbles[k], width, height), width, height)
    ensures Spared(g, mask, Earlier(t, qs, width, height, j, k), BubbleRegion(t, qs[j].bubbles[k], width, height))
  {
    var s, earlier := BubbleRegion(t, qs[j].bubbles[k], width, height), Earlier(t, qs, width, height, j, k);
    forall x, y, n | InSquare(s, x, y) && 0 <= n < |earlier|
      ensures Open(mask, earlier[n], x, y)
    {
      var j', k' := EarlierSquares(t, qs, width, height, j, k, n);
      assert !Intersect(s, earlier[n]);
    }
  }

  // ----- Selection

  /** The selection keeps the order of the bubbles. */
  lemma SelectInOrder(bubbles: seq<Bubble>, ratios: seq<Fill>, minimum: real, b: Bubble, f: Fill)
    requires |bubbles| == |ratios|
    ensures Select([], [], minimum) == []
    ensures Select(bubbles + [b], ratios + [f], minimum)
            == Select(bubbles, ratios, minimum)
               + if f.Some? && f.value > minimum then [BubbleResult(b.id, f.value)] else []
  {
    assert (bubbles + [b])[..|bubbles|] == bubbles && (ratios + [f])[..|ratios|] == ratios;
  }

  lemma {:induction false} SelectsExactly(bubbles: seq<Bubble>, ratios: seq<Fill>, minimum: real, r: BubbleResult)
    requires |bubbles| == |ratios|
    ensures r in Select(bubbles, ratios, minimum)
            <==> exists k :: 0 <= k < |bubbles| && ratios[k].Some? && ratios[k].value > minimum
                             && r == BubbleResult(bubbles[k].id, ratios[k].value)
  {
    if bubbles != [] {
      var n := |bubbles| - 1;
      SelectsExactly(bubbles[..n], ratios[..n], minimum, r);
      if k :| 0 <= k < |bubbles| && Above(ratios[k], minimum) && r == BubbleResult(bubbles[k].id, ratios[k].value) {
        assert k < n ==> bubbles[..n][k] == bubbles[k] && ratios[..n][k] == ratios[k];
      }
      if r in Select(bubbles[..n], ratios[..n], minimum) {
        var k :| 0 <= k < n && Above(ratios[..n][k], minimum) && r == BubbleResult(bubbles[..n][k].id, ratios[..n][k].value);
        assert bubbles[k] == bubbles[..n][k] && ratios[k] == ratios[..n][k];
      }
    }
  }

  /** Marking never drops a bubble that would be selected on the unmodified page;
      it reports it with the confidence read in place, which is at least as high. */
  lemma MarkNeverDrops(t: Template, qs: seq<Question>, g: Grid, width: nat, height: nat, mask: Grid, pi: real,
                       out: seq<seq<Fill>>, j: nat, k: nat)
    requires Readable(t, qs, g, width, height, mask, pi) && PageRatios(t, qs, g, width, height, mask, pi, out)
    requires j < |qs| && k < |qs[j].bubbles|
    requires Above(PureRatio(t, qs, g, width, height, mask, pi, j, k), t.minimumConfidence)
    ensures AtLeast(out[j][k], PureRatio(t, qs, g, width, height, mask, pi, j, k))
    ensures BubbleResult(qs[j].bubbles[k].id, out[j][k].value) in Select(qs[j].bubbles, out[j], t.minimumConfidence)
  {
    InPlaceAgainstPure(t, qs, g, width, height, mask, pi, j, k);
    SelectsExactly(qs[j].bubbles, out[j], t.minimumConfidence, BubbleResult(qs[j].bubbles[k].id, out[j][k].value));
  }

  /** Bubbles without a pixel are never selected: their ratios are NaN. */
  lemma NoPixelsNoSelection(t: Template, qs: seq<Question>, g: Grid, width: nat, height: nat, mask: Grid, pi: real,
                            out: seq<seq<Fill>>, j: nat, r: BubbleResult)
    requires Readable(t, qs, g, width, height, mask, pi) && PageRatios(t, qs, g, width, height, mask, pi, out)
    requires PixelRadius(t, width) == 0 && j < |qs|
    ensures r !in Select(qs[j].bubbles, out[j], t.minimumConfidence)
  {
    SelectsExactly(qs[j].bubbles, out[j], t.minimumConfidence, r);
    hide White;
  }
}
