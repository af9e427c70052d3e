/** Fitting one rectangle in another and scaling a preprocessing template with it:
    `FittedBounds` and `Scale` in internal/omr/mat.go, `ScalePreprocessingTemplate` in
    internal/omr/preprocess.go. Factors are real numbers; converting one to a pixel
    count drops the fraction. */
module Fitting {
  import Arithmetic

  datatype FitMethod = Cover | Contain | Fill

  /** `uint(x)` for a factor that is not negative. */
  function Pixels(x: real): nat
    requires x >= 0.0
  {
    x.Floor
  }

  function Ratio(a: nat, b: nat): (r: real)
    requires b > 0
    ensures r >= 0.0
  {
    Quotient(a as real, b as real);
    a as real / b as real
  }

  function Scaled(factor: real, a: nat): nat
    requires factor >= 0.0
  {
    Nonnegative(factor, a as real);
    Pixels(factor * a as real)
  }

  function FittedBounds(width: nat, height: nat, targetWidth: nat, targetHeight: nat, fit: FitMethod): (nat, nat)
    requires width > 0 && height > 0
  {
    var scaleX, scaleY := Ratio(targetWidth, width), Ratio(targetHeight, height);
    match fit
    case Cover =>
      if scaleY > scaleX then (Scaled(scaleY, width), targetHeight) else (targetWidth, Scaled(scaleX, height))
    case Contain =>
      if scaleY < scaleX then (Scaled(scaleY, width), targetHeight) else (targetWidth, Scaled(scaleX, height))
    case Fill => (targetWidth, targetHeight)
  }

  // ----- Arithmetic

  lemma Nonnegative(a: real, b: real)
    requires a >= 0.0 && b >= 0.0
    ensures a * b >= 0.0
  {
  }

  lemma Quotient(a: real, b: real)
    requires a >= 0.0 && b > 0.0
    ensures a / b >= 0.0 && a / b * b == a
  {
  }

  lemma Monotone(a: real, b: real, x: real)
    requires a <= b && x >= 0.0
    ensures a * x <= b * x
  {
  }

  lemma Cancel(a: real, b: real, x: real)
    requires a * x <= b * x && x > 0.0
    ensures a <= b
  {
  }

  lemma FloorMonotone(a: real, b: real)
    requires a <= b
    ensures a.Floor <= b.Floor
  {
  }

  /** A factor takes the side it was computed from to the target exactly. */
  lemma RatioMeets(a: nat, b: nat)
    requires b > 0
    ensures Ratio(a, b) * b as real == a as real && Scaled(Ratio(a, b), b) == a
  {
    Quotient(a as real, b as real);
  }

  /** A smaller factor never gives more pixels. */
  lemma ScaledMonotone(f: real, g: real, a: nat)
    requires 0.0 <= f <= g
    ensures Scaled(f, a) <= Scaled(g, a)
  {
    Monotone(f, g, a as real);
    Nonnegative(f, a as real);
    FloorMonotone(f * a as real, g * a as real);
  }

  // ----- Fitting

  /** Scaling the rectangle by one factor keeps it within the target. */
  predicate Fits(factor: real, width: nat, height: nat, targetWidth: nat, targetHeight: nat) {
    factor >= 0.0 && factor * width as real <= targetWidth as real && factor * height as real <= targetHeight as real
  }

  predicate Covers(factor: real, width: nat, height: nat, targetWidth: nat, targetHeight: nat) {
    factor >= 0.0 && factor * width as real >= targetWidth as real && factor * height as real >= targetHeight as real
  }

  lemma FactorBelow(factor: real, side: nat, target: nat)
    requires side > 0 && factor * side as real <= target as real
    ensures factor <= Ratio(target, side)
  {
    RatioMeets(target, side);
    Cancel(factor, Ratio(target, side), side as real);
  }

  lemma FactorAbove(factor: real, side: nat, target: nat)
    requires side > 0 && factor * side as real >= target as real
    ensures factor >= Ratio(target, side)
  {
    RatioMeets(target, side);
    Cancel(Ratio(target, side), factor, side as real);
  }

  /** The factor `Contain` and `Cover` scale both sides by. */
  function FactorOf(width: nat, height: nat, targetWidth: nat, targetHeight: nat, fit: FitMethod): (f: real)
    requires width > 0 && height > 0 && !fit.Fill?
    ensures f >= 0.0
  {
    var scaleX, scaleY := Ratio(targetWidth, width), Ratio(targetHeight, height);
    if fit.Contain? then (if scaleY < scaleX then scaleY else scaleX)
    else (if scaleY > scaleX then scaleY else scaleX)
  }

  /** Both sides are scaled by one factor. */
  lemma UniformFactor(width: nat, height: nat, targetWidth: nat, targetHeight: nat, fit: FitMethod)
    requires width > 0 && height > 0 && !fit.Fill?
    ensures var f := FactorOf(width, height, targetWidth, targetHeight, fit);
            FittedBounds(width, height, targetWidth, targetHeight, fit) == (Scaled(f, width), Scaled(f, height))
  {
    RatioMeets(targetWidth, width);
    RatioMeets(targetHeight, height);
    hide Scaled, Ratio;
  }

  /** `Contain` stays within the target, and is at least every uniform scaling that does. */
  lemma ContainIsLargest(width: nat, height: nat, targetWidth: nat, targetHeight: nat)
    requires width > 0 && height > 0
    ensures var (w, h) := FittedBounds(width, height, targetWidth, targetHeight, Contain);
            && w <= targetWidth && h <= targetHeight
            && forall f :: Fits(f, width, height, targetWidth, targetHeight) ==> Scaled(f, width) <= w && Scaled(f, height) <= h
  {
    var best := FactorOf(width, height, targetWidth, targetHeight, Contain);
    UniformFactor(width, height, targetWidth, targetHeight, Contain);
    RatioMeets(targetWidth, width);
    RatioMeets(targetHeight, height);
    ScaledMonotone(best, Ratio(targetWidth, width), width);
    ScaledMonotone(best, Ratio(targetHeight, height), height);
    hide FittedBounds, Scaled, Ratio;
    forall f | Fits(f, width, height, targetWidth, targetHeight)
      ensures Scaled(f, width) <= Scaled(best, width) && Scaled(f, height) <= Scaled(best, height)
    {
      FactorBelow(f, width, targetWidth);
      FactorBelow(f, height, targetHeight);
      ScaledMonotone(f, best, width);
      ScaledMonotone(f, best, height);
    }
  }

  /** `Cover` reaches the target on both sides, and is at most every uniform scaling that does. */
  lemma CoverIsSmallest(width: nat, height: nat, targetWidth: nat, targetHeight: nat)
    requires width > 0 && height > 0
    ensures var (w, h) := FittedBounds(width, height, targetWidth, targetHeight, Cover);
            && w >= targetWidth && h >= targetHeight
            && forall f :: Covers(f, width, height, targetWidth, targetHeight) ==> Scaled(f, width) >= w && Scaled(f, height) >= h
  {
    var best := FactorOf(width, height, targetWidth, targetHeight, Cover);
    UniformFactor(width, height, targetWidth, targetHeight, Cover);
    RatioMeets(targetWidth, width);
    RatioMeets(targetHeight, height);
    ScaledMonotone(Ratio(targetWidth, width), best, width);
    ScaledMonotone(Ratio(targetHeight, height), best, height);
    hide FittedBounds, Scaled, Ratio;
    forall f | Covers(f, width, height, targetWidth, targetHeight)
      ensures Scaled(f, width) >= Scaled(best, width) && Scaled(f, height) >= Scaled(best, height)
    {
      FactorAbove(f, width, targetWidth);
      FactorAbove(f, height, targetHeight);
      ScaledMonotone(best, f, width);
      ScaledMonotone(best, f, height);
    }
  }

  /** Each side is less than a pixel short of its exact scaling, by the same factor,
      and one of them is the target itself. */
  lemma AspectWithinPixel(width: nat, height: nat, targetWidth: nat, targetHeight: nat, fit: FitMethod)
    requires width > 0 && height > 0 && !fit.Fill?
    ensures var (w, h) := FittedBounds(width, height, targetWidth, targetHeight, fit);
            var f := FactorOf(width, height, targetWidth, targetHeight, fit);
            && (w == targetWidth || h == targetHeight)
            && 0.0 <= f * width as real - w as real < 1.0
            && 0.0 <= f * height as real - h as real < 1.0
  {
    UniformFactor(width, height, targetWidth, targetHeight, fit);
    RatioMeets(targetWidth, width);
    RatioMeets(targetHeight, height);
    var f := FactorOf(width, height, targetWidth, targetHeight, fit);
    Nonnegative(f, width as real);
    Nonnegative(f, height as real);
    assert Scaled(f, width) == (f * width as real).Floor && Scaled(f, height) == (f * height as real).Floor;
    hide Scaled, Ratio;
  }

  /** In whole pixels: the side that does not meet the target is scaled by the other, and
      the fraction is dropped. `Fill` meets it on both. */
  lemma FittedExactly(width: nat, height: nat, targetWidth: nat, targetHeight: nat, fit: FitMethod)
    requires width > 0 && height > 0
    ensures var wide, tall := targetWidth * height > targetHeight * width, targetWidth * height < targetHeight * width;
            FittedBounds(width, height, targetWidth, targetHeight, fit)
            == if (fit.Contain? && wide) || (fit.Cover? && tall) then (width * targetHeight / height, targetHeight)
               else if fit.Fill? then (targetWidth, targetHeight)
               else (targetWidth, height * targetWidth / width)
  {
    ScaledIsQuotient(targetWidth, width, height);
    ScaledIsQuotient(targetHeight, height, width);
    RatioOrder(targetHeight, height, targetWidth, width);
    RatioOrder(targetWidth, width, targetHeight, height);
    hide Scaled, Ratio;
  }

  lemma RatioOrder(a: nat, b: nat, c: nat, d: nat)
    requires b > 0 && d > 0
    ensures Ratio(a, b) < Ratio(c, d) <==> a * d < c * b
  {
    RatioMeets(a, b);
    RatioMeets(c, d);
    Arithmetic.CastProduct(a, d);
    Arithmetic.CastProduct(c, b);
    CrossOrder(Ratio(a, b), Ratio(c, d), b as real, d as real, a as real, c as real);
  }

  lemma CrossOrder(x: real, y: real, b: real, d: real, a: real, c: real)
    requires b > 0.0 && d > 0.0 && x * b == a && y * d == c
    ensures x < y <==> a * d < c * b
  {
    Associate(x, b, d);
    Associate(y, d, b);
    Arithmetic.ScaledOrder(y, x, b * d);
  }

  lemma Associate(x: real, b: real, d: real)
    ensures x * b * d == x * (b * d)
  {
  }

  /** Scaling a length by a ratio of whole numbers is a whole division. */
  lemma ScaledIsQuotient(a: nat, b: nat, length: nat)
    requires b > 0
    ensures Scaled(Ratio(a, b), length) == length * a / b
  {
    var q, rest := length * a / b, length * a % b;
    assert length * a == q * b + rest;
    RatioMeets(a, b);
    Arithmetic.CastProduct(length, a);
    Arithmetic.CastProduct(q, b);
    Nonnegative(Ratio(a, b), length as real);
    Bracket(Ratio(a, b), length as real, a as real, b as real, q as real, rest as real);
  }

  lemma Bracket(f: real, length: real, a: real, b: real, q: real, rest: real)
    requires b > 0.0 && f * b == a && length * a == q * b + rest && 0.0 <= rest < b
    ensures q <= f * length < q + 1.0
  {
    assert f * length * b == q * b + rest;
    Cancel(q, f * length, b);
    if f * length >= q + 1.0 { Monotone(q + 1.0, f * length, b); }
  }

  /** A rectangle of the target's shape is fitted exactly, whatever the method. */
  lemma SameShapeIsExact(width: nat, height: nat, targetWidth: nat, targetHeight: nat, fit: FitMethod)
    requires width > 0 && height > 0 && targetWidth * height == targetHeight * width
    ensures FittedBounds(width, height, targetWidth, targetHeight, fit) == (targetWidth, targetHeight)
  {
    RatioMeets(targetWidth, width);
    RatioMeets(targetHeight, height);
    SameRatio(targetWidth, width, targetHeight, height);
    hide Scaled, Ratio;
  }

  lemma SameRatio(a: nat, b: nat, c: nat, d: nat)
    requires b > 0 && d > 0 && a * d == c * b
    ensures Ratio(a, b) == Ratio(c, d)
  {
    assert a as real * d as real == (a * d) as real == (c * b) as real == c as real * b as real;
    Cross(a as real, b as real, c as real, d as real);
  }

  lemma Cross(a: real, b: real, c: real, d: real)
    requires b > 0.0 && d > 0.0 && a * d == c * b
    ensures a / b == c / d
  {
    var x := a / b;
    assert x * b == a;
    assert (x * d) * b == c * b;
    assert x * d == c;
  }
}
