/** The page matching of `Preprocess`, internal/omr/preprocess.go.

    Pages are objects: flipping one changes its matrix in place, and the loop
    swaps the entries of the caller's slice. `FindAnchors` is any deterministic
    function of the page image and the anchors of a template page. */
module Preprocess {
  import Arithmetic
  import opened Omr

  type Pixel = nat
  type Image = seq<seq<Pixel>>
  type Locations = seq<Point>
  type Finder<!Anchors> = (Image, Anchors) -> Result<Locations, Error>

  function Reverse<T>(s: seq<T>): (r: seq<T>)
    ensures |r| == |s|
  {
    seq(|s|, i requires 0 <= i < |s| => s[|s| - 1 - i])
  }

  /** What `gocv.Flip` does with code -1: both axes are reversed. */
  function Rotate180(image: Image): (r: Image)
    ensures |r| == |image|
  {
    seq(|image|, y requires 0 <= y < |image| => Reverse(image[|image| - 1 - y]))
  }

  predicate Rectangular(image: Image, w: nat) {
    forall y :: 0 <= y < |image| ==> |image[y]| == w
  }

  /** Pixel (x, y) of a turned page is pixel (w - 1 - x, h - 1 - y) of the page. */
  lemma RotatePixels(image: Image, w: nat)
    requires Rectangular(image, w)
    ensures |Rotate180(image)| == |image| && Rectangular(Rotate180(image), w)
    ensures forall y, x :: 0 <= y < |image| && 0 <= x < w ==>
              Rotate180(image)[y][x] == image[|image| - 1 - y][w - 1 - x]
  {
    forall y | 0 <= y < |image|
      ensures |Rotate180(image)[y]| == w
      ensures forall x :: 0 <= x < w ==> Rotate180(image)[y][x] == image[|image| - 1 - y][w - 1 - x]
    {
      assert Rotate180(image)[y] == Reverse(image[|image| - 1 - y]);
    }
  }

  lemma RotateTwice(image: Image)
    ensures Rotate180(Rotate180(image)) == image
  {
    forall y | 0 <= y < |image|
      ensures Rotate180(Rotate180(image))[y] == image[y]
    {
      assert Reverse(Reverse(image[y])) == image[y];
    }
  }

  class Mat {
    var image: Image
    var kind: MatType
    var closed: bool

    constructor (image: Image, kind: MatType)
      ensures this.image == image && this.kind == kind && !closed
    {
      this.image, this.kind, this.closed := image, kind, false;
    }

    method Flip()
      modifies this`image
      ensures image == Rotate180(old(image))
    {
      image := Rotate180(image);
    }

    predicate Empty()
      reads this
    {
      closed || image == [] || image[0] == []
    }

    function Type(): MatType
      reads this
    {
      if closed then Unknown else kind
    }
  }

  /** A page as the specification sees it: which matrix, holding which image. */
  datatype Sheet = Sheet(mat: Mat, image: Image) {
    function Turned(): Sheet {
      Sheet(mat, Rotate180(image))
    }
  }

  ghost predicate Distinct(pages: array<Mat>)
    reads pages
  {
    forall i, j :: 0 <= i < j < pages.Length ==> pages[i] != pages[j]
  }

  /** The pages are among these matrices, the only ones whose images may change. */
  ghost predicate Among(pages: array<Mat>, all: set<Mat>)
    reads pages
  {
    forall k :: 0 <= k < pages.Length ==> pages[k] in all
  }

  ghost function Sheets(pages: array<Mat>): (s: seq<Sheet>)
    reads pages, pages[..]
    ensures |s| == pages.Length
    ensures forall k :: 0 <= k < |s| ==> s[k] == Sheet(pages[k], pages[k].image)
  {
    seq(pages.Length, k requires 0 <= k < pages.Length reads pages, pages[..] => Sheet(pages[k], pages[k].image))
  }

  // ----- Specification of the matching loop

  /** Trying one page, both ways up, against the anchors of one template page. */
  datatype Attempt =
    | Upright(locations: Locations)
    | Inverted(locations: Locations)
    | NoMatch
    | Abort(error: Error, turned: bool)
  {
    predicate Fits() {
      Upright? || Inverted?
    }
  }

  function Try<Anchors>(find: Finder<Anchors>, image: Image, anchors: Anchors): (a: Attempt)
    ensures a.Abort? ==> a.error != ErrCannotMatchAnchor
  {
    match find(image, anchors)
    case Success(found) => Upright(found)
    case Failure(e) =>
      if e != ErrCannotMatchAnchor then Abort(e, false)
      else
        match find(Rotate180(image), anchors)
        case Success(found) => Inverted(found)
        case Failure(e') => if e' == ErrCannotMatchAnchor then NoMatch else Abort(e', true)
  }

  /** The sheet after an attempt. */
  function Handled(sheet: Sheet, a: Attempt): Sheet {
    if a.Inverted? || (a.Abort? && a.turned) then sheet.Turned() else sheet
  }

  /** The first sheet from `j` on whose attempt is not a plain mismatch. */
  function Seek<Anchors>(find: Finder<Anchors>, sheets: seq<Sheet>, anchors: Anchors, j: nat): (k: nat)
    requires j <= |sheets|
    decreases |sheets| - j
    ensures j <= k <= |sheets|
    ensures k < |sheets| ==> !Try(find, sheets[k].image, anchors).NoMatch?
    ensures forall m :: j <= m < k ==> Try(find, sheets[m].image, anchors).NoMatch?
  {
    if j == |sheets| || !Try(find, sheets[j].image, anchors).NoMatch? then j else Seek(find, sheets, anchors, j + 1)
  }

  function Swap<T>(s: seq<T>, i: nat, j: nat): seq<T>
    requires i < |s| && j < |s|
  {
    s[i := s[j]][j := s[i]]
  }

  /** One iteration of the outer loop: template page `i` is matched with the first
      remaining page that fits, which is swapped into place. */
  datatype Step = Step(result: Result<Locations, Error>, sheets: seq<Sheet>)

  function MatchOne<Anchors>(find: Finder<Anchors>, anchors: Anchors, sheets: seq<Sheet>, i: nat): (s: Step)
    requires i < |sheets|
    ensures |s.sheets| == |sheets|
  {
    var j := Seek(find, sheets, anchors, i);
    if j == |sheets| then
      Step(Failure(ErrCannotMatchAnchor), sheets)
    else
      var a := Try(find, sheets[j].image, anchors);
      var handled := sheets[j := Handled(sheets[j], a)];
      if a.Abort? then Step(Failure(a.error), handled) else Step(Success(a.locations), Swap(handled, i, j))
  }

  /** How the loop ends: the locations recorded, the pages left behind, and the
      error it returned, if any. */
  datatype Matching = Matching(error: Option<Error>, locations: seq<Locations>, sheets: seq<Sheet>)

  function MatchFrom<Anchors>(find: Finder<Anchors>, template: seq<Anchors>, sheets: seq<Sheet>, i: nat): Matching
    requires i <= |template| == |sheets|
    decreases |template| - i
  {
    if i == |template| then
      Matching(None, [], sheets)
    else
      var step := MatchOne(find, template[i], sheets, i);
      match step.result
      case Failure(e) => Matching(Some(e), [], step.sheets)
      case Success(found) =>
        var rest := MatchFrom(find, template, step.sheets, i + 1);
        rest.(locations := [found] + rest.locations)
  }

  // ----- The loop

  /** The source's attempt on one page: as it is, then turned, then turned back. */
  method TryPage<Anchors>(find: Finder<Anchors>, page: Mat, anchors: Anchors) returns (found: Result<Locations, Error>)
    modifies page`image
    ensures var a := Try(find, old(page.image), anchors);
            && Sheet(page, page.image) == Handled(Sheet(page, old(page.image)), a)
            && found == match a {
                          case Upright(l) => Success(l)
                          case Inverted(l) => Success(l)
                          case NoMatch => Failure(ErrCannotMatchAnchor)
                          case Abort(e, _) => Failure(e)
                        }
  {
    found := find(page.image, anchors);
    if found == Failure(ErrCannotMatchAnchor) {
      page.Flip();
      found := find(page.image, anchors);
      if found == Failure(ErrCannotMatchAnchor) {
        page.Flip();
        RotateTwice(old(page.image));
      }
    }
  }

  /** The two pages trade places. */
  method SwapPages(pages: array<Mat>, i: nat, j: nat, ghost all: set<Mat>)
    requires i < pages.Length && j < pages.Length && Distinct(pages) && Among(pages, all)
    modifies pages
    ensures Distinct(pages) && Among(pages, all)
    ensures Sheets(pages) == Swap(old(Sheets(pages)), i, j)
  {
    ghost var before := Sheets(pages);
    pages[i], pages[j] := pages[j], pages[i];
    assert Sheets(pages) == Swap(before, i, j);
  }

  /** The inner loop of the source. */
  method MatchTemplatePage<Anchors>(find: Finder<Anchors>, anchors: Anchors, pages: array<Mat>, i: nat,
                                    ghost all: set<Mat>)
    returns (r: Result<Locations, Error>)
    requires i < pages.Length && Distinct(pages) && Among(pages, all)
    modifies pages, all`image
    ensures Distinct(pages) && Among(pages, all)
    ensures Step(r, Sheets(pages)) == MatchOne(find, anchors, old(Sheets(pages)), i)
  {
    hide Try, Rotate180;
    ghost var before := Sheets(pages);
    for j := i to pages.Length
      invariant pages[..] == old(pages[..]) && Sheets(pages) == before
      invariant Seek(find, before, anchors, i) == Seek(find, before, anchors, j)
    {
      ghost var handled := before[j := Handled(before[j], Try(find, before[j].image, anchors))];
      r := TryPage(find, pages[j], anchors);
      assert Sheets(pages) == handled;
      if r == Failure(ErrCannotMatchAnchor) {
        assert Try(find, before[j].image, anchors).NoMatch? && handled == before;
        continue;
      }
      if r.Failure? {
        return;
      }
      SwapPages(pages, i, j, all);
      return;
    }
    r := Failure(ErrCannotMatchAnchor);
  }

  /** A matching is what was recorded so far followed by the rest. */
  ghost predicate Continues(whole: Matching, recorded: seq<Locations>, rest: Matching) {
    whole.error == rest.error && whole.sheets == rest.sheets && whole.locations == recorded + rest.locations
  }

  lemma MatchedOneMore<Anchors>(find: Finder<Anchors>, template: seq<Anchors>, sheets: seq<Sheet>, i: nat,
                                whole: Matching, recorded: seq<Locations>)
    requires i < |template| == |sheets| && Continues(whole, recorded, MatchFrom(find, template, sheets, i))
    ensures var step := MatchOne(find, template[i], sheets, i);
            match step.result
            case Failure(e) => whole.error == Some(e) && whole.sheets == step.sheets
            case Success(found) => Continues(whole, recorded + [found], MatchFrom(find, template, step.sheets, i + 1))
  {
    hide MatchOne;
    var step := MatchOne(find, template[i], sheets, i);
    if step.result.Success? {
      var rest := MatchFrom(find, template, step.sheets, i + 1);
      assert recorded + ([step.result.value] + rest.locations) == recorded + [step.result.value] + rest.locations;
    }
  }

  lemma MatchedAll<Anchors>(find: Finder<Anchors>, template: seq<Anchors>, sheets: seq<Sheet>, whole: Matching,
                            recorded: seq<Locations>)
    requires |template| == |sheets| && Continues(whole, recorded, MatchFrom(find, template, sheets, |template|))
    ensures whole == Matching(None, recorded, sheets)
  {
    assert recorded + [] == recorded;
  }

  /** One iteration of the outer loop: a template page is matched and its locations are
      recorded, or the error ends the whole matching. */
  method MatchAndRecord<Anchors>(find: Finder<Anchors>, template: seq<Anchors>, pages: array<Mat>, i: nat,
                                 trueLocations: array<Locations>, ghost all: set<Mat>, ghost whole: Matching)
    returns (err: Option<Error>)
    requires i < pages.Length == trueLocations.Length == |template| && Distinct(pages) && Among(pages, all)
    requires Continues(whole, trueLocations[..i], MatchFrom(find, template, Sheets(pages), i))
    modifies pages, trueLocations, all`image
    ensures Distinct(pages) && Among(pages, all)
    ensures match err
            case Some(e) => whole.error == err && whole.sheets == Sheets(pages)
            case None => Continues(whole, trueLocations[..i + 1], MatchFrom(find, template, Sheets(pages), i + 1))
  {
    hide MatchOne, Sheets, MatchFrom, Distinct, Among, Continues;
    ghost var recorded := trueLocations[..i];
    MatchedOneMore(find, template, Sheets(pages), i, whole, recorded);
    var step := MatchTemplatePage(find, template[i], pages, i, all);
    if step.Failure? {
      return Some(step.error);
    }
    trueLocations[i] := step.value;
    assert trueLocations[..i + 1] == recorded + [step.value];
    err := None;
  }

  method MatchPages<Anchors>(find: Finder<Anchors>, template: seq<Anchors>, pages: array<Mat>, ghost all: set<Mat>)
    returns (r: Result<seq<Locations>, Error>)
    requires pages.Length == |template| && Distinct(pages) && Among(pages, all)
    modifies pages, all`image
    ensures var m := MatchFrom(find, template, old(Sheets(pages)), 0);
            && Sheets(pages) == m.sheets
            && r == match m.error { case None => Success(m.locations) case Some(e) => Failure(e) }
  {
    ghost var whole := MatchFrom(find, template, Sheets(pages), 0);
    assert Continues(whole, [], whole);
    hide MatchOne, Sheets, MatchFrom, Distinct, Among, Continues;
    var trueLocations := new Locations[|template|](_ => []);
    for i := 0 to |template|
      invariant Distinct(pages) && Among(pages, all)
      invariant Continues(whole, trueLocations[..i], MatchFrom(find, template, Sheets(pages), i))
    {
      var err := MatchAndRecord(find, template, pages, i, trueLocations, all, whole);
      if err.Some? {
        return Failure(err.value);
      }
    }
    MatchedAll(find, template, Sheets(pages), whole, trueLocations[..|template|]);
    assert trueLocations[..] == trueLocations[..|template|];
    r := Success(trueLocations[..]);
  }

  // ----- The checks before it

  datatype Template<Anchors> = Template(width: nat, height: nat, anchors: seq<Anchors>)

  /** Why a single page is refused, if it is; the checks are made in this order. The
      aspect ratio of a template without height is infinite or NaN, and never near. */
  function Refusal<Anchors>(template: Template<Anchors>, page: Mat): Option<Error>
    reads page
  {
    if page.Empty() then Some(ErrEmptyMat)
    else if page.Type() != Gray then Some(ErrWrongMatType)
    else if template.height == 0 then Some(ErrIncompatibleAspect)
    else
      var difference := (|page.image[0]| as real) / (|page.image| as real)
                        - (template.width as real) / (template.height as real);
      if -TOLERABLE_ASPECT_RATIO_DIFFERENCE <= difference <= TOLERABLE_ASPECT_RATIO_DIFFERENCE then None
      else Some(ErrIncompatibleAspect)
  }

  /** Which pages are not refused, without division: the aspect ratios differ by at most
      a tenth. */
  lemma AcceptedExactly<Anchors>(template: Template<Anchors>, page: Mat)
    requires !page.Empty() && page.kind == Gray
    ensures var w, h := |page.image[0]|, |page.image|;
            Refusal(template, page)
            == if template.height > 0
                  && -(h * template.height) <= 10 * (w * template.height - template.width * h) <= h * template.height then None
               else Some(ErrIncompatibleAspect)
  {
    if template.height > 0 {
      AspectsDiffer(|page.image[0]|, |page.image|, template.width, template.height);
    }
  }

  lemma RefusedFirst<Anchors>(template: Template<Anchors>, page: Mat)
    ensures Refusal(template, page) == Some(ErrEmptyMat) <==> page.closed || page.image == [] || page.image[0] == []
    ensures Refusal(template, page) == Some(ErrWrongMatType)
            <==> !page.closed && page.image != [] && page.image[0] != [] && page.kind != Gray
  {
  }

  lemma AspectsDiffer(w: nat, h: nat, tw: nat, th: nat)
    requires h > 0 && th > 0
    ensures var difference := w as real / h as real - tw as real / th as real;
            -0.1 <= difference <= 0.1 <==> -(h * th) <= 10 * (w * th - tw * h) <= h * th
  {
    CommonDenominator(w as real, h as real, tw as real, th as real);
    Arithmetic.CastProduct(h, th);
    Arithmetic.CastProduct(w, th);
    Arithmetic.CastProduct(tw, h);
    TenthOf(w as real / h as real - tw as real / th as real, w * th - tw * h, h * th);
  }

  lemma TenthOf(d: real, n: int, area: int)
    requires area > 0 && d * area as real == n as real
    ensures -0.1 <= d <= 0.1 <==> -area <= 10 * n <= area
  {
    BoundedProduct(d, n as real, area as real);
    assert (10 * n) as real == 10.0 * n as real && (-area) as real == -(area as real);
  }

  lemma BoundedProduct(d: real, v: real, r: real)
    requires r > 0.0 && d * r == v
    ensures (d <= 0.1 <==> v <= 0.1 * r) && (-0.1 <= d <==> -(0.1 * r) <= v)
  {
    Arithmetic.ScaledOrder(d, 0.1, r);
    Arithmetic.ScaledOrder(-0.1, d, r);
  }

  lemma CommonDenominator(w: real, h: real, tw: real, th: real)
    requires h > 0.0 && th > 0.0
    ensures (w / h - tw / th) * (h * th) == w * th - tw * h
  {
    var a, b := w / h, tw / th;
    assert a * h == w && b * th == tw;
    assert a * h * th == w * th && b * th * h == tw * h;
    Distribute(a, b, h, th);
  }

  lemma Distribute(a: real, b: real, h: real, th: real)
    ensures (a - b) * (h * th) == a * h * th - b * th * h
  {
  }

  /** `Preprocess` up to the end of the matching phase. A refused scan leaves every
      page as it was; any other ends as the matching does. */
  method Preprocess<Anchors>(find: Finder<Anchors>, template: Template<Anchors>, pages: array<Mat>)
    returns (r: Result<seq<Locations>, Error>)
    requires Distinct(pages)
    modifies pages, (set m | m in pages[..])`image
    ensures pages.Length != |template.anchors| ==>
              r == Failure(ErrIncompatiblePageCount) && Sheets(pages) == old(Sheets(pages))
    ensures pages.Length == |template.anchors| ==>
              if forall k :: 0 <= k < pages.Length ==> old(Refusal(template, pages[k])).None? then
                var m := MatchFrom(find, template.anchors, old(Sheets(pages)), 0);
                && Sheets(pages) == m.sheets
                && r == match m.error { case None => Success(m.locations) case Some(e) => Failure(e) }
              else
                && Sheets(pages) == old(Sheets(pages))
                && r.Failure?
                && (exists k :: 0 <= k < pages.Length && old(Refusal(template, pages[k])) == Some(r.error)
                                && forall m :: 0 <= m < k ==> old(Refusal(template, pages[m])).None?)
  {
    if pages.Length != |template.anchors| {
      return Failure(ErrIncompatiblePageCount);
    }
    for k := 0 to pages.Length
      invariant forall m :: 0 <= m < k ==> Refusal(template, pages[m]).None?
      invariant pages[..] == old(pages[..])
    {
      var refusal := Refusal(template, pages[k]);
      if refusal.Some? {
        return Failure(refusal.value);
      }
    }
    r := MatchPages(find, template.anchors, pages, set m | m in pages[..]);
  }
}
