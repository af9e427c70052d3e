/** `findAnchor` and `FindAnchors` of internal/omr/anchor.go: one bisection search
    per anchor, each starting from the orientation of the last confident match.

    Rotating and template matching are OpenCV's; here they are one function
    `score` from page, anchor and angle to a position and a quality. */
module FindAnchors {
  import opened Omr
  import opened AnchorSearch
  import opened AnchorSearchProofs

  datatype Config = Config(initialAngle: real, breadth: real, maxQuality: real)

  datatype Found = Found(position: Point, orientation: real, confidence: real)

  /** What the source delegates: input checks, and matching at one angle. */
  datatype Matcher<!Page, !Anchor> = Matcher(
    check: (Page, Anchor) -> Option<Error>,
    score: (Page, Anchor, real) -> Evaluation<Point>,
    pi: real)

  function Objective<Page, Anchor>(m: Matcher<Page, Anchor>, page: Page, anchor: Anchor): real -> Evaluation<Point> {
    angle => m.score(page, anchor, angle)
  }

  /** The search `findAnchor` makes. */
  function AngleSearch<Page, Anchor>(m: Matcher<Page, Anchor>, page: Page, anchor: Anchor,
                                     conf: Config): Search<Point> {
    SearchBetween(conf.initialAngle - conf.breadth / 2.0, conf.initialAngle + conf.breadth / 2.0,
                  0.5 / 180.0 * m.pi, conf.maxQuality, Objective(m, page, anchor), MAX_ROUNDS)
  }

  function Locate<Page, Anchor>(m: Matcher<Page, Anchor>, page: Page, anchor: Anchor,
                                conf: Config): Result<Found, Error> {
    match m.check(page, anchor)
    case Some(e) => Failure(e)
    case None =>
      match AngleSearch(m, page, anchor, conf).outcome
      case Failure(e) => Failure(e)
      case Success(c) => Success(Found(c.result, c.candidate, c.quality))
  }

  method FindAnchor<Page, Anchor>(m: Matcher<Page, Anchor>, page: Page, anchor: Anchor, conf: Config)
    returns (r: Result<Found, Error>)
    ensures r == Locate(m, page, anchor, conf)
  {
    hide SearchBetween;
    var bad := m.check(page, anchor);
    if bad.Some? {
      return Failure(bad.value);
    }
    var best, probes := BisectionSearch(conf.initialAngle - conf.breadth / 2.0, conf.initialAngle + conf.breadth / 2.0,
                                        0.5 / 180.0 * m.pi, conf.maxQuality, Objective(m, page, anchor));
    match best {
      case Failure(e) => r := Failure(e);
      case Success(c) => r := Success(Found(c.result, c.candidate, c.quality));
    }
  }

  /** The search for anchor `i`, given the angle it starts from. */
  function LocateFrom<Page, Anchor>(m: Matcher<Page, Anchor>, page: Page, anchors: seq<Anchor>, conf: Config,
                                    angle: real, i: nat): Result<Found, Error>
    requires i < |anchors|
  {
    Locate(m, page, anchors[i], conf.(initialAngle := angle))
  }

  /** The angle that the search for anchor `i` starts from. */
  function AngleBefore<Page, Anchor>(m: Matcher<Page, Anchor>, page: Page, anchors: seq<Anchor>, conf: Config,
                                     i: nat): real
    requires i <= |anchors|
  {
    if i == 0 then conf.initialAngle
    else
      var angle := AngleBefore(m, page, anchors, conf, i - 1);
      var f := LocateFrom(m, page, anchors, conf, angle, i - 1);
      if f.Success? && f.value.confidence >= conf.maxQuality then f.value.orientation else angle
  }

  /** What the search for anchor `i` of the page returns. */
  function Nth<Page, Anchor>(m: Matcher<Page, Anchor>, page: Page, anchors: seq<Anchor>, conf: Config,
                             i: nat): Result<Found, Error>
    requires i < |anchors|
  {
    LocateFrom(m, page, anchors, conf, AngleBefore(m, page, anchors, conf, i), i)
  }

  predicate Matched<Page, Anchor>(m: Matcher<Page, Anchor>, page: Page, anchors: seq<Anchor>, conf: Config,
                                  minConfidence: real, i: nat)
    requires i < |anchors|
  {
    var f := Nth(m, page, anchors, conf, i);
    f.Success? && f.value.confidence >= minConfidence
  }

  /** All anchors are found, each well enough, or the first one that is not
      decides the error. */
  method FindAnchors<Page, Anchor>(m: Matcher<Page, Anchor>, page: Page, anchors: seq<Anchor>, minConfidence: real,
                                   config: Config)
    returns (r: Result<seq<Point>, Error>)
    ensures r.Success? <==> forall i :: 0 <= i < |anchors| ==>
                              Nth(m, page, anchors, config, i).Success?
                              && Nth(m, page, anchors, config, i).value.confidence >= minConfidence
    ensures r.Success? ==> |r.value| == |anchors|
                           && forall i :: 0 <= i < |anchors| ==>
                                Nth(m, page, anchors, config, i).Success?
                                && r.value[i] == Nth(m, page, anchors, config, i).value.position
    ensures r.Failure? ==> exists i :: 0 <= i < |anchors| && !Matched(m, page, anchors, config, minConfidence, i)
                                       && (forall k :: 0 <= k < i ==> Matched(m, page, anchors, config, minConfidence, k))
                                       && r.error == match Nth(m, page, anchors, config, i) {
                                                       case Failure(e) => e
                                                       case Success(_) => ErrCannotMatchAnchor
                                                     }
  {
    hide Locate;
    var conf := config;
    var positions := new Point[|anchors|](_ => Point(0, 0));
    for i := 0 to |anchors|
      invariant conf == config.(initialAngle := AngleBefore(m, page, anchors, config, i))
      invariant forall k :: 0 <= k < i ==> Matched(m, page, anchors, config, minConfidence, k)
                                           && positions[k] == Nth(m, page, anchors, config, k).value.position
    {
      var result := FindAnchor(m, page, anchors[i], conf);
      assert result == Nth(m, page, anchors, config, i);
      if result.Failure? {
        assert !Matched(m, page, anchors, config, minConfidence, i);
        return Failure(result.error);
      }
      if result.value.confidence < minConfidence {
        assert !Matched(m, page, anchors, config, minConfidence, i);
        return Failure(ErrCannotMatchAnchor);
      }
      positions[i] := result.value.position;
      if result.value.confidence >= conf.maxQuality {
        conf := conf.(initialAngle := result.value.orientation);
      }
    }
    r := Success(positions[..]);
  }

  /** The anchor was found at the maximum quality. */
  predicate Confident<Page, Anchor>(m: Matcher<Page, Anchor>, page: Page, anchors: seq<Anchor>, conf: Config, i: nat)
    requires i < |anchors|
  {
    var f := Nth(m, page, anchors, conf, i);
    f.Success? && f.value.confidence >= conf.maxQuality
  }

  /** The threaded angle is the orientation of the last earlier anchor that was found
      at the maximum quality, or the configured one if there is none. */
  lemma {:induction false} AngleIsLastConfident<Page, Anchor>(m: Matcher<Page, Anchor>, page: Page,
                                                              anchors: seq<Anchor>,
                                                              conf: Config, i: nat, last: Option<nat>)
    requires i <= |anchors| && (last.Some? ==> last.value < i && Confident(m, page, anchors, conf, last.value))
    requires var next := if last.Some? then last.value + 1 else 0;
             forall k :: next <= k < i ==> !Confident(m, page, anchors, conf, k)
    ensures AngleBefore(m, page, anchors, conf, i)
            == match last
               case Some(j) => Nth(m, page, anchors, conf, j).value.orientation
               case None => conf.initialAngle
    ensures i < |anchors| ==>
              Nth(m, page, anchors, conf, i)
              == Locate(m, page, anchors[i], Config(AngleBefore(m, page, anchors, conf, i), conf.breadth, conf.maxQuality))
  {
    hide Locate;
    if i > 0 && last != Some(i - 1) {
      assert !Confident(m, page, anchors, conf, i - 1);
      AngleIsLastConfident(m, page, anchors, conf, i - 1, last);
    }
  }

  /** With a validated configuration, no anchor costs more than 19 matches, the
      iteration bound is never the reason of a failure, and a located anchor has
      the best quality among all angles tried. */
  lemma LocateValidated<Page, Anchor>(m: Matcher<Page, Anchor>, page: Page, anchor: Anchor, conf: Config)
    requires m.pi > 0.0 && 0.0 <= conf.breadth < m.pi / 2.0
    requires m.check(page, anchor).None?
    ensures |AngleSearch(m, page, anchor, conf).probes| <= 19
    ensures match Locate(m, page, anchor, conf)
            case Success(f) =>
              && m.score(page, anchor, f.orientation) == Value(f.position, f.confidence)
              && forall angle :: angle in AngleSearch(m, page, anchor, conf).probes
                   ==> m.score(page, anchor, angle).Value? && m.score(page, anchor, angle).quality <= f.confidence
            case Failure(e) =>
              exists angle :: m.score(page, anchor, angle) == Fault(e)
  {
    hide SearchBetween;
    var objective, epsilon := Objective(m, page, anchor), 0.5 / 180.0 * m.pi;
    var lo, hi := conf.initialAngle - conf.breadth / 2.0, conf.initialAngle + conf.breadth / 2.0;
    ValidatedTemplateBudget(conf.initialAngle, conf.breadth, m.pi, conf.maxQuality, objective, MAX_ROUNDS);
    SearchReturnsBest(lo, hi, epsilon, conf.maxQuality, objective, MAX_ROUNDS);
    var s := AngleSearch(m, page, anchor, conf);
    if s.outcome.Failure? {
      var angle := s.probes[|s.probes| - 1];
      assert m.score(page, anchor, angle) == objective(angle) == Fault(s.outcome.error);
      assert Locate(m, page, anchor, conf) == Failure(s.outcome.error);
    } else {
      assert forall angle :: angle in s.probes ==> m.score(page, anchor, angle) == objective(angle);
    }
  }

  /** Which angles are tried first: half the breadth, whatever the initial angle, then
      the two ends of the interval around the initial angle. Each ends the search if it
      cannot be matched, or is matched better than the maximum quality. */
  lemma FirstAngles<Page, Anchor>(m: Matcher<Page, Anchor>, page: Page, anchor: Anchor, conf: Config)
    requires m.check(page, anchor).None? && conf.breadth >= 0.0
    ensures EndsAt(m, page, anchor, conf, conf.breadth / 2.0)
    ensures GoesOn(m, page, anchor, conf, conf.breadth / 2.0)
            ==> EndsAt(m, page, anchor, conf, conf.initialAngle - conf.breadth / 2.0)
    ensures GoesOn(m, page, anchor, conf, conf.breadth / 2.0)
            && GoesOn(m, page, anchor, conf, conf.initialAngle - conf.breadth / 2.0)
            ==> EndsAt(m, page, anchor, conf, conf.initialAngle + conf.breadth / 2.0)
  {
    var lo, hi := conf.initialAngle - conf.breadth / 2.0, conf.initialAngle + conf.breadth / 2.0;
    assert Min(lo, hi) == lo && Max(lo, hi) == hi && (hi - lo) / 2.0 == conf.breadth / 2.0;
  }

  /** If matching at this angle fails, or finds more than the maximum quality, that is
      what locating the anchor returns. */
  predicate EndsAt<Page, Anchor>(m: Matcher<Page, Anchor>, page: Page, anchor: Anchor, conf: Config, angle: real) {
    match m.score(page, anchor, angle)
    case Fault(e) => Locate(m, page, anchor, conf) == Failure(e)
    case Value(position, quality) =>
      quality > conf.maxQuality ==> Locate(m, page, anchor, conf) == Success(Found(position, angle, quality))
  }

  predicate GoesOn<Page, Anchor>(m: Matcher<Page, Anchor>, page: Page, anchor: Anchor, conf: Config, angle: real) {
    var e := m.score(page, anchor, angle);
    e.Value? && e.quality <= conf.maxQuality
  }

  /** An anchor that the checks refuse is not searched for. */
  lemma RefusedAnchor<Page, Anchor>(m: Matcher<Page, Anchor>, page: Page, anchor: Anchor, conf: Config)
    requires m.check(page, anchor).Some?
    ensures Locate(m, page, anchor, conf) == Failure(m.check(page, anchor).value)
  {
  }

  /** The closer an angle is to the peak, the better the anchor matches. */
  ghost predicate BestAt<Page, Anchor>(m: Matcher<Page, Anchor>, page: Page, anchor: Anchor, peak: real) {
    forall y, z :: m.score(page, anchor, y).Value? && m.score(page, anchor, z).Value? && Abs(z - peak) < Abs(y - peak)
                   ==> m.score(page, anchor, y).quality < m.score(page, anchor, z).quality
  }

  lemma BestAtIsUnimodal<Page, Anchor>(m: Matcher<Page, Anchor>, page: Page, anchor: Anchor, peak: real)
    requires BestAt(m, page, anchor, peak)
    ensures FallsWithDistance(Objective(m, page, anchor), peak) && StrictlyUnimodal(Objective(m, page, anchor), peak)
  {
    var objective := Objective(m, page, anchor);
    forall y, z | objective(y).Value? && objective(z).Value? && Abs(z - peak) < Abs(y - peak)
      ensures objective(y).quality < objective(z).quality
    {
      assert objective(y) == m.score(page, anchor, y) && objective(z) == m.score(page, anchor, z);
    }
    FallingIsUnimodal(objective, peak);
  }

  lemma FallingIsUnimodal<T>(objective: real -> Evaluation<T>, peak: real)
    requires FallsWithDistance(objective, peak)
    ensures StrictlyUnimodal(objective, peak)
  {
  }

  /** With a validated configuration, if the quality falls with the distance from a peak
      within half the breadth of the initial angle, an anchor is located better than the
      maximum quality or less than a quarter of a degree from the peak. */
  lemma LocateFindsPeak<Page, Anchor>(m: Matcher<Page, Anchor>, page: Page, anchor: Anchor, conf: Config, peak: real)
    requires m.pi > 0.0 && 0.0 <= conf.breadth < m.pi / 2.0 && m.check(page, anchor).None?
    requires conf.initialAngle - conf.breadth / 2.0 <= peak <= conf.initialAngle + conf.breadth / 2.0
    requires BestAt(m, page, anchor, peak)
    ensures match Locate(m, page, anchor, conf)
            case Success(f) =>
              f.confidence > conf.maxQuality || Abs(f.orientation - peak) < 0.25 / 180.0 * m.pi
            case Failure(e) => exists angle :: m.score(page, anchor, angle) == Fault(e)
  {
    LocateValidated(m, page, anchor, conf);
    SearchEndsNear(m, page, anchor, conf, peak);
    QuarterDegree(m.pi);
    hide AngleSearch, BestAt, Abs, Precision;
  }

  lemma SearchEndsNear<Page, Anchor>(m: Matcher<Page, Anchor>, page: Page, anchor: Anchor, conf: Config, peak: real)
    requires conf.breadth >= 0.0 && BestAt(m, page, anchor, peak)
    requires conf.initialAngle - conf.breadth / 2.0 <= peak <= conf.initialAngle + conf.breadth / 2.0
    ensures EndsNear(AngleSearch(m, page, anchor, conf).outcome, conf.maxQuality, peak, Precision(m.pi) / 2.0 + 0.0)
  {
    hide SearchBetween, StrictlyUnimodal, FallsWithDistance, BestAt, EndsNear, Precision;
    BestAtIsUnimodal(m, page, anchor, peak);
    SearchedInterval(m, page, anchor, conf);
    hide AngleSearch;
    EndsWithin(conf.initialAngle - conf.breadth / 2.0, conf.initialAngle + conf.breadth / 2.0, Precision(m.pi),
               conf.maxQuality, Objective(m, page, anchor), peak);
  }

  /** Half a degree. */
  function Precision(pi: real): real { 0.5 / 180.0 * pi }

  lemma SearchedInterval<Page, Anchor>(m: Matcher<Page, Anchor>, page: Page, anchor: Anchor, conf: Config)
    ensures AngleSearch(m, page, anchor, conf)
            == SearchBetween(conf.initialAngle - conf.breadth / 2.0, conf.initialAngle + conf.breadth / 2.0, Precision(m.pi),
                             conf.maxQuality, Objective(m, page, anchor), MAX_ROUNDS)
  {
    hide SearchBetween;
  }

  lemma EndsWithin<T>(lo: real, hi: real, epsilon: real, maxQuality: real, objective: real -> Evaluation<T>, peak: real)
    requires lo <= peak <= hi && StrictlyUnimodal(objective, peak) && FallsWithDistance(objective, peak)
    ensures EndsNear(SearchBetween(lo, hi, epsilon, maxQuality, objective, MAX_ROUNDS).outcome,
                     maxQuality, peak, epsilon / 2.0 + 0.0)
  {
    assert Min(lo, hi) == lo && Max(lo, hi) == hi;
    hide SearchBetween, StrictlyUnimodal, FallsWithDistance, EndsNear;
    SearchConverges(lo, hi, epsilon, maxQuality, objective, MAX_ROUNDS, peak, 0.0);
  }

  lemma QuarterDegree(pi: real)
    ensures Precision(pi) / 2.0 + 0.0 == 0.25 / 180.0 * pi
  {
  }

  /** With any breadth an anchor is located, or matching fails at some angle, if 2^20 - 1
      halvings make the breadth narrower than half a degree. Otherwise it is located only
      by more than the maximum quality, and giving up after 2^20 rounds is the other way to
      fail. */
  lemma LocateExhausted<Page, Anchor>(m: Matcher<Page, Anchor>, page: Page, anchor: Anchor, conf: Config)
    requires m.check(page, anchor).None?
    ensures var r := Locate(m, page, anchor, conf);
            if Halved(Abs(conf.breadth), 1_048_575) < 0.5 / 180.0 * m.pi then
              r.Success? || exists angle :: m.score(page, anchor, angle) == Fault(r.error)
            else if r.Success? then r.value.confidence > conf.maxQuality
            else r.error == ErrMaxIterations || exists angle :: m.score(page, anchor, angle) == Fault(r.error)
  {
    hide SearchBetween, Halved;
    var lo, hi := conf.initialAngle - conf.breadth / 2.0, conf.initialAngle + conf.breadth / 2.0;
    var objective := Objective(m, page, anchor);
    assert Abs(hi - lo) == Abs(conf.breadth);
    SearchExhausted(lo, hi, 0.5 / 180.0 * m.pi, conf.maxQuality, objective, MAX_ROUNDS);
    var s := AngleSearch(m, page, anchor, conf);
    if FailsByProbe(s, objective) {
      var angle := s.probes[|s.probes| - 1];
      assert m.score(page, anchor, angle) == objective(angle) == Fault(s.outcome.error);
    }
  }
}
