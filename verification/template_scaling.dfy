/** `ScalePreprocessingTemplate` and `scalePreprocessingTemplateTo` of internal/omr/
    preprocess.go. An anchor is its position, as a fraction of the template's size, and
    the size and type of its matrix; whether OpenCV can resize a matrix is a parameter. */
module TemplateScaling {
  import opened Omr
  import opened Fitting

  datatype Anchor = Anchor(x: real, y: real, width: nat, height: nat, type_: MatType)

  datatype Template = Template(width: nat, height: nat, minConfidence: real, anchors: seq<seq<Anchor>>)

  type Resize = (nat, nat, nat, nat) -> bool

  /** `Scale` on the matrix of an anchor; a scaled matrix is never binary. */
  function ScaledAnchor(a: Anchor, scaleX: real, scaleY: real): Anchor
    requires scaleX >= 0.0 && scaleY >= 0.0
  {
    a.(width := Scaled(scaleX, a.width), height := Scaled(scaleY, a.height), type_ := if a.type_.Binary? then Gray else a.type_)
  }

  predicate Resizable(resize: Resize, a: Anchor, scaleX: real, scaleY: real)
    requires scaleX >= 0.0 && scaleY >= 0.0
  {
    resize(a.width, a.height, Scaled(scaleX, a.width), Scaled(scaleY, a.height))
  }

  function ScaledPage(page: seq<Anchor>, scaleX: real, scaleY: real): (r: seq<Anchor>)
    requires scaleX >= 0.0 && scaleY >= 0.0
    ensures |r| == |page|
  {
    seq(|page|, j requires 0 <= j < |page| => ScaledAnchor(page[j], scaleX, scaleY))
  }

  /** The template scaled to the given size: positions and settings are kept. */
  function ScaledTemplate(src: Template, width: nat, height: nat): (r: Template)
    requires src.width > 0 && src.height > 0
    ensures |r.anchors| == |src.anchors|
  {
    var scaleX, scaleY := Ratio(width, src.width), Ratio(height, src.height);
    Template(width, height, src.minConfidence,
             seq(|src.anchors|, i requires 0 <= i < |src.anchors| => ScaledPage(src.anchors[i], scaleX, scaleY)))
  }

  predicate AllResizable(resize: Resize, src: Template, width: nat, height: nat)
    requires src.width > 0 && src.height > 0
  {
    forall i, j :: 0 <= i < |src.anchors| && 0 <= j < |src.anchors[i]| ==>
      Resizable(resize, src.anchors[i][j], Ratio(width, src.width), Ratio(height, src.height))
  }

  function AnchorCount(anchors: seq<seq<Anchor>>): nat {
    if anchors == [] then 0 else AnchorCount(anchors[..|anchors| - 1]) + |anchors[|anchors| - 1]|
  }

  /** `open` counts the matrices that were created and are not closed. When an anchor
      cannot be resized those scaled before are closed, but not the one that failed. */
  method ScaleTemplateTo(src: Template, width: nat, height: nat, resize: Resize)
    returns (r: Result<Template, Error>, open: int)
    requires src.width > 0 && src.height > 0
    ensures r == if AllResizable(resize, src, width, height) then Success(ScaledTemplate(src, width, height))
                 else Failure(ErrOpenCV)
    ensures open == if r.Success? then AnchorCount(r.value.anchors) else 1
  {
    var scaleX, scaleY := Ratio(width, src.width), Ratio(height, src.height);
    hide Ratio, Scaled;
    var anchors: seq<seq<Anchor>> := [];
    open := 0;
    for i := 0 to |src.anchors|
      invariant |anchors| == i && open == AnchorCount(anchors)
      invariant forall k :: 0 <= k < i ==> anchors[k] == ScaledPage(src.anchors[k], scaleX, scaleY)
      invariant forall k, j :: 0 <= k < i && 0 <= j < |src.anchors[k]| ==> Resizable(resize, src.anchors[k][j], scaleX, scaleY)
    {
      var page: seq<Anchor> := [];
      for j := 0 to |src.anchors[i]|
        invariant |page| == j && open == AnchorCount(anchors) + j
        invariant forall k :: 0 <= k < j ==> page[k] == ScaledAnchor(src.anchors[i][k], scaleX, scaleY)
        invariant forall k :: 0 <= k < j ==> Resizable(resize, src.anchors[i][k], scaleX, scaleY)
      {
        var a := src.anchors[i][j];
        var w, h := Scaled(scaleX, a.width), Scaled(scaleY, a.height);
        open := open + 1;
        if !resize(a.width, a.height, w, h) {
          assert !Resizable(resize, src.anchors[i][j], scaleX, scaleY);
          open := CloseAnchors(anchors, open - |page|);
          return Failure(ErrOpenCV), open;
        }
        page := page + [Anchor(a.x, a.y, w, h, if a.type_.Binary? then Gray else a.type_)];
      }
      assert page == ScaledPage(src.anchors[i], scaleX, scaleY);
      assert (anchors + [page])[..i] == anchors;
      anchors := anchors + [page];
    }
    assert anchors == ScaledTemplate(src, width, height).anchors;
    r := Success(Template(width, height, src.minConfidence, anchors));
  }

  /** `PreprocessTemplate.Close` on the pages that are filled. */
  method CloseAnchors(anchors: seq<seq<Anchor>>, open: int) returns (left: int)
    ensures left == open - AnchorCount(anchors)
  {
    left := open;
    for i := 0 to |anchors|
      invariant left == open - AnchorCount(anchors[..i])
    {
      left := left - |anchors[i]|;
      assert anchors[..i + 1][..i] == anchors[..i];
    }
    assert anchors[..|anchors|] == anchors;
  }

  method ScalePreprocessingTemplate(fit: FitMethod, src: Template, targetWidth: nat, targetHeight: nat, resize: Resize)
    returns (r: Result<Template, Error>)
    requires src.width > 0 && src.height > 0
    ensures var (w, h) := FittedBounds(src.width, src.height, targetWidth, targetHeight, fit);
            r == if AllResizable(resize, src, w, h) then Success(ScaledTemplate(src, w, h)) else Failure(ErrOpenCV)
  {
    var (w, h) := FittedBounds(src.width, src.height, targetWidth, targetHeight, fit);
    var scaled, open := ScaleTemplateTo(src, w, h, resize);
    if scaled.Failure? { return Failure(ErrOpenCV); }
    r := scaled;
  }

  // ----- Anchors stay inside

  /** Where an anchor begins on a side of a template, and that it ends within the side. */
  predicate Inside(fraction: real, size: nat, side: nat) {
    fraction >= 0.0 && fraction * side as real + size as real <= side as real
  }

  /** The pixels an anchor is drawn on. */
  predicate DrawnInside(fraction: real, size: nat, side: nat)
    requires fraction >= 0.0
  {
    Nonnegative(fraction, side as real);
    Pixels(fraction * side as real) + size <= side
  }

  lemma InsideIsDrawnInside(fraction: real, size: nat, side: nat)
    requires Inside(fraction, size, side)
    ensures DrawnInside(fraction, size, side)
  {
    Nonnegative(fraction, side as real);
  }

  lemma Regroup(p: real, s: real, f: real, a: real)
    ensures f * (p * s + a) == p * (f * s) + f * a
  {
  }

  /** On either side, an anchor that lies inside a template lies inside the scaled one,
      and so do the pixels it is drawn on. */
  lemma AnchorStaysInside(fraction: real, size: nat, side: nat, newSide: nat)
    requires side > 0 && Inside(fraction, size, side)
    ensures Inside(fraction, Scaled(Ratio(newSide, side), size), newSide)
    ensures DrawnInside(fraction, Scaled(Ratio(newSide, side), size), newSide)
  {
    var f := Ratio(newSide, side);
    RatioMeets(newSide, side);
    Nonnegative(f, size as real);
    assert Scaled(f, size) as real <= f * size as real;
    hide Ratio, Scaled, DrawnInside;
    Monotone(fraction * side as real + size as real, side as real, f);
    Regroup(fraction, side as real, f, size as real);
    InsideIsDrawnInside(fraction, Scaled(f, size), newSide);
  }

  ghost predicate AnchorsInside(t: Template) {
    forall i, j :: 0 <= i < |t.anchors| && 0 <= j < |t.anchors[i]| ==>
      Inside(t.anchors[i][j].x, t.anchors[i][j].width, t.width) && Inside(t.anchors[i][j].y, t.anchors[i][j].height, t.height)
  }

  /** A template whose anchors lie inside it is scaled to one of which that is true,
      with the same anchors at the same places, and none of them binary. */
  lemma ScalingKeepsAnchors(src: Template, width: nat, height: nat)
    requires src.width > 0 && src.height > 0
    ensures var t := ScaledTemplate(src, width, height);
            && |t.anchors| == |src.anchors|
            && (forall i :: 0 <= i < |src.anchors| ==> |t.anchors[i]| == |src.anchors[i]|)
            && (forall i, j :: 0 <= i < |src.anchors| && 0 <= j < |src.anchors[i]| ==>
                  var a, b := src.anchors[i][j], t.anchors[i][j];
                  && a.x == b.x && a.y == b.y
                  && b.width == a.width * width / src.width && b.height == a.height * height / src.height
                  && b.type_ == if a.type_ == Binary then Gray else a.type_)
            && t.width == width && t.height == height && t.minConfidence == src.minConfidence
            && (AnchorsInside(src) ==> AnchorsInside(t))
  {
    var t := ScaledTemplate(src, width, height);
    forall i, j | 0 <= i < |src.anchors| && 0 <= j < |src.anchors[i]|
      ensures t.anchors[i][j].width == src.anchors[i][j].width * width / src.width
      ensures t.anchors[i][j].height == src.anchors[i][j].height * height / src.height
    {
      ScaledIsQuotient(width, src.width, src.anchors[i][j].width);
      ScaledIsQuotient(height, src.height, src.anchors[i][j].height);
    }
    hide Scaled, Ratio, Inside;
    if AnchorsInside(src) {
      forall i, j | 0 <= i < |t.anchors| && 0 <= j < |t.anchors[i]|
        ensures Inside(t.anchors[i][j].x, t.anchors[i][j].width, t.width)
                && Inside(t.anchors[i][j].y, t.anchors[i][j].height, t.height)
      {
        var a := src.anchors[i][j];
        AnchorStaysInside(a.x, a.width, src.width, width);
        AnchorStaysInside(a.y, a.height, src.height, height);
      }
    }
  }

  /** Scaling by a whole number scales the size of an anchor exactly. */
  lemma ScaledByWhole(size: nat, side: nat, k: nat)
    requires side > 0
    ensures Scaled(Ratio(k * side, side), size) == k * size
  {
    RatioMeets(k * side, side);
    Cancel(Ratio(k * side, side), k as real, side as real);
    Cancel(k as real, Ratio(k * side, side), side as real);
    assert k as real * size as real == (k * size) as real;
  }

  /** An anchor that sticks out by `excess` is drawn outside once that is a pixel. */
  lemma StickingOutShows(fraction: real, size: nat, side: nat, k: nat)
    requires side > 0 && fraction >= 0.0
    requires k as real * (fraction * side as real + size as real - side as real) >= 1.0
    ensures !DrawnInside(fraction, Scaled(Ratio(k * side, side), size), k * side)
  {
    ScaledByWhole(size, side, k);
    var at := fraction * (k * side) as real;
    assert (k * side) as real == k as real * side as real;
    Expand(k as real, fraction, side as real, size as real);
    assert (k * size) as real == k as real * size as real;
    assert at + (k * size) as real >= (k * side) as real + 1.0;
    Nonnegative(fraction, (k * side) as real);
    hide Scaled, Ratio;
  }

  lemma Expand(k: real, p: real, s: real, a: real)
    ensures k * (p * s + a - s) == p * (k * s) + k * a - k * s
  {
  }

  /** A whole number whose multiple of `x` is at least one. */
  lemma Multiple(x: real) returns (k: nat)
    requires x > 0.0
    ensures k as real * x >= 1.0
  {
    var inverse := 1.0 / x;
    k := inverse.Floor + 1;
    Monotone(inverse, k as real, x);
  }

  /** The pixels an anchor is drawn on stay inside at every size of the template if and
      only if the anchor itself lies inside; that its pixels do at one size is not
      enough, because dropping fractions can hide that it sticks out. */
  lemma DrawnInsideExactly(fraction: real, size: nat, side: nat)
    requires side > 0 && fraction >= 0.0
    ensures (forall newSide: nat :: DrawnInside(fraction, Scaled(Ratio(newSide, side), size), newSide))
            <==> Inside(fraction, size, side)
  {
    if Inside(fraction, size, side) {
      forall newSide: nat
        ensures DrawnInside(fraction, Scaled(Ratio(newSide, side), size), newSide)
      {
        AnchorStaysInside(fraction, size, side, newSide);
      }
    } else {
      var k := Multiple(fraction * side as real + size as real - side as real);
      StickingOutShows(fraction, size, side, k);
    }
  }

  /** An anchor of nine pixels at 0.19 of a side of ten: its pixels fit, and no longer do
      when the side is doubled. */
  lemma DrawnInsideIsNotKept()
    ensures DrawnInside(0.19, 9, 10) && !DrawnInside(0.19, Scaled(Ratio(20, 10), 9), 20)
  {
    assert (0.19 * 10.0).Floor == 1 && (0.19 * 20.0).Floor == 3;
    assert Ratio(20, 10) == 2.0;
    assert Scaled(Ratio(20, 10), 9) == 18;
  }

  /** A template scaled with `Contain` fits the page it is scaled for. */
  lemma CalibratedTemplateFitsPage(src: Template, pageWidth: nat, pageHeight: nat)
    requires src.width > 0 && src.height > 0 && AnchorsInside(src)
    ensures var (w, h) := FittedBounds(src.width, src.height, pageWidth, pageHeight, Contain);
            var t := ScaledTemplate(src, w, h);
            && t.width <= pageWidth && t.height <= pageHeight && AnchorsInside(t)
  {
    var (w, h) := FittedBounds(src.width, src.height, pageWidth, pageHeight, Contain);
    ContainIsLargest(src.width, src.height, pageWidth, pageHeight);
    ScalingKeepsAnchors(src, w, h);
    hide FittedBounds, AnchorsInside;
  }
}
