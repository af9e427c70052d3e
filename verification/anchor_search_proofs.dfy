/** What the anchor search guarantees, for every objective. */
module AnchorSearchProofs {
  import opened Omr
  import opened AnchorSearch

  /** The candidate is what the objective says at its position. */
  predicate Genuine<T(==)>(c: Candidate<T>, objective: real -> Evaluation<T>) {
    objective(c.candidate) == Value(c.result, c.quality)
  }

  /** The candidate of the first probe, half the width of the interval. */
  function First<T>(a: real, b: real, objective: real -> Evaluation<T>): Candidate<T>
    requires objective(Abs(b - a) / 2.0).Value?
  {
    var e := objective(Abs(b - a) / 2.0);
    Candidate(e.result, Abs(b - a) / 2.0, e.quality)
  }

  // ----- The result is the best of all probes

  ghost predicate BestOf<T>(c: Candidate<T>, probes: seq<real>, objective: real -> Evaluation<T>) {
    && Genuine(c, objective)
    && forall p :: p in probes ==> objective(p).Value? && objective(p).quality <= c.quality
  }

  lemma ProbeBothBest<T>(best: Candidate<T>, lo: real, hi: real, maxQuality: real, objective: real -> Evaluation<T>)
    requires Genuine(best, objective)
    ensures match ProbeBoth(best, lo, hi, maxQuality, objective)
            case Ongoing(b) =>
              BestOf(b, [lo, hi], objective) && best.quality <= b.quality && (b == best || b.candidate in [lo, hi])
            case Halted(s) =>
              s.outcome.Success? ==>
                && BestOf(s.outcome.value, s.probes, objective)
                && (s.outcome.value == best || s.outcome.value.candidate in s.probes)
  {
  }

  lemma {:induction false} RoundsReturnBest<T>(lo: real, hi: real, best: Candidate<T>, epsilon: real, maxQuality: real,
                                               objective: real -> Evaluation<T>, rounds: nat)
    requires Genuine(best, objective)
    decreases rounds
    ensures var s := Rounds(lo, hi, best, epsilon, maxQuality, objective, rounds);
            s.outcome.Success? ==>
              && BestOf(s.outcome.value, s.probes, objective)
              && (s.outcome.value == best || s.outcome.value.candidate in s.probes)
              && best.quality <= s.outcome.value.quality
  {
    if rounds > 0 {
      ProbeBothBest(best, lo, hi, maxQuality, objective);
      var sweep, w := ProbeBoth(best, lo, hi, maxQuality, objective), (hi - lo) / 2.0;
      if sweep.Ongoing? && hi - lo >= epsilon {
        var b := sweep.best;
        RoundsReturnBest(b.candidate - w / 2.0, b.candidate + w / 2.0, b, epsilon, maxQuality, objective, rounds - 1);
      }
    }
  }

  /** The returned candidate was probed, carries its own evaluation, and no
      other probe of the whole search was better. */
  lemma SearchReturnsBest<T>(a: real, b: real, epsilon: real, maxQuality: real,
                             objective: real -> Evaluation<T>, rounds: nat)
    ensures var s := SearchBetween(a, b, epsilon, maxQuality, objective, rounds);
            s.outcome.Success? ==>
              && s.outcome.value.candidate in s.probes
              && BestOf(s.outcome.value, s.probes, objective)
  {
    if objective(Abs(b - a) / 2.0).Value? {
      RoundsReturnBest(Min(a, b), Max(a, b), First(a, b, objective), epsilon, maxQuality, objective, rounds);
    }
  }

  /** The candidate is probe k, and every probe before it was worse. */
  ghost predicate FirstBest<T>(c: Candidate<T>, probes: seq<real>, objective: real -> Evaluation<T>, k: nat) {
    && k < |probes| && probes[k] == c.candidate && objective(probes[k]) == Value(c.result, c.quality)
    && forall i :: 0 <= i < k ==> objective(probes[i]).Value? && objective(probes[i]).quality < c.quality
  }

  /** The best of a whole search, if it is better than the best so far. */
  ghost predicate NewFirst<T>(best: Candidate<T>, c: Candidate<T>, probes: seq<real>, objective: real -> Evaluation<T>) {
    c == best || (c.quality > best.quality && exists k :: 0 <= k < |probes| && FirstBest(c, probes, objective, k))
  }

  lemma ProbeBothFirst<T>(best: Candidate<T>, lo: real, hi: real, maxQuality: real, objective: real -> Evaluation<T>)
    requires Genuine(best, objective)
    ensures match ProbeBoth(best, lo, hi, maxQuality, objective)
            case Ongoing(b) => NewFirst(best, b, [lo, hi], objective)
            case Halted(s) => s.outcome.Success? ==> NewFirst(best, s.outcome.value, s.probes, objective)
  {
    var one := ProbeOne(best, lo, maxQuality, objective);
    match one {
      case Halted(s) =>
        if s.outcome.Success? && s.outcome.value != best { assert FirstBest(s.outcome.value, [lo], objective, 0); }
      case Ongoing(b1) =>
        if b1 != best { assert FirstBest(b1, [lo, hi], objective, 0); }
        match ProbeOne(b1, hi, maxQuality, objective) {
          case Halted(s) =>
            assert [lo] + [hi] == [lo, hi];
            if s.outcome.Success? && s.outcome.value != b1 { assert FirstBest(s.outcome.value, [lo, hi], objective, 1); }
          case Ongoing(b2) =>
            if b2 != b1 { assert FirstBest(b2, [lo, hi], objective, 1); }
        }
    }
  }

  lemma FirstAfter<T>(c: Candidate<T>, lo: real, hi: real, rest: seq<real>, objective: real -> Evaluation<T>, k: nat)
    requires FirstBest(c, rest, objective, k)
    requires objective(lo).Value? && objective(lo).quality < c.quality
    requires objective(hi).Value? && objective(hi).quality < c.quality
    ensures FirstBest(c, [lo, hi] + rest, objective, k + 2)
  {
  }

  lemma Joined<T>(best: Candidate<T>, b: Candidate<T>, c: Candidate<T>, lo: real, hi: real, rest: seq<real>,
                  objective: real -> Evaluation<T>)
    requires BestOf(b, [lo, hi], objective) && NewFirst(best, b, [lo, hi], objective) && NewFirst(b, c, rest, objective)
    ensures NewFirst(best, c, [lo, hi] + rest, objective)
  {
    assert lo in [lo, hi] && hi in [lo, hi];
    hide FirstBest;
    if c != b {
      var k :| 0 <= k < |rest| && FirstBest(c, rest, objective, k);
      FirstAfter(c, lo, hi, rest, objective, k);
    } else if b != best {
      var k :| 0 <= k < |[lo, hi]| && FirstBest(b, [lo, hi], objective, k);
      StillFirst(b, [lo, hi], rest, objective, k);
    }
  }

  lemma {:induction false} RoundsReturnFirst<T>(lo: real, hi: real, best: Candidate<T>, epsilon: real, maxQuality: real,
                                                objective: real -> Evaluation<T>, rounds: nat)
    requires Genuine(best, objective)
    decreases rounds
    ensures var s := Rounds(lo, hi, best, epsilon, maxQuality, objective, rounds);
            s.outcome.Success? ==> NewFirst(best, s.outcome.value, s.probes, objective)
  {
    hide ProbeBoth, NewFirst;
    if rounds > 0 {
      ProbeBothBest(best, lo, hi, maxQuality, objective);
      ProbeBothFirst(best, lo, hi, maxQuality, objective);
      hide BestOf;
      var sweep, w := ProbeBoth(best, lo, hi, maxQuality, objective), (hi - lo) / 2.0;
      if sweep.Ongoing? && hi - lo >= epsilon {
        var b := sweep.best;
        assert Genuine(b, objective) by { IsGenuine(b, [lo, hi], objective); }
        RoundsReturnFirst(b.candidate - w / 2.0, b.candidate + w / 2.0, b, epsilon, maxQuality, objective, rounds - 1);
        var rest := Rounds(b.candidate - w / 2.0, b.candidate + w / 2.0, b, epsilon, maxQuality, objective, rounds - 1);
        if rest.outcome.Success? {
          Joined(best, b, rest.outcome.value, lo, hi, rest.probes, objective);
        }
      }
    }
  }

  lemma IsGenuine<T>(c: Candidate<T>, probes: seq<real>, objective: real -> Evaluation<T>)
    requires BestOf(c, probes, objective)
    ensures Genuine(c, objective)
  {
  }

  lemma StillFirst<T>(c: Candidate<T>, probes: seq<real>, more: seq<real>, objective: real -> Evaluation<T>, k: nat)
    requires FirstBest(c, probes, objective, k)
    ensures FirstBest(c, probes + more, objective, k)
  {
  }

  lemma FromFirst<T>(first: Candidate<T>, c: Candidate<T>, rest: seq<real>, objective: real -> Evaluation<T>)
    requires Genuine(first, objective) && NewFirst(first, c, rest, objective)
    ensures exists k :: 0 <= k <= |rest| && FirstBest(c, [first.candidate] + rest, objective, k)
  {
    if c == first {
      assert FirstBest(c, [first.candidate] + rest, objective, 0);
    } else {
      var k :| 0 <= k < |rest| && FirstBest(c, rest, objective, k);
      assert FirstBest(c, [first.candidate] + rest, objective, k + 1);
    }
  }

  /** Of several probes with the best quality the first is returned. */
  lemma TiesKeepFirst<T>(a: real, b: real, epsilon: real, maxQuality: real, objective: real -> Evaluation<T>, rounds: nat)
    ensures var s := SearchBetween(a, b, epsilon, maxQuality, objective, rounds);
            s.outcome.Success? ==>
              exists k :: 0 <= k < |s.probes| && FirstBest(s.outcome.value, s.probes, objective, k)
  {
    if objective(Abs(b - a) / 2.0).Value? {
      var first := First(a, b, objective);
      var s := SearchBetween(a, b, epsilon, maxQuality, objective, rounds);
      var rest := Rounds(Min(a, b), Max(a, b), first, epsilon, maxQuality, objective, rounds);
      RoundsReturnFirst(Min(a, b), Max(a, b), first, epsilon, maxQuality, objective, rounds);
      assert s == Search(Success(first), [first.candidate]) || s == rest.After([first.candidate]);
      assert s.probes == [first.candidate] || s.probes == [first.candidate] + rest.probes;
      assert [first.candidate] + [] == [first.candidate];
      hide Rounds, SearchBetween, FirstBest;
      if s.outcome.Success? {
        if s.probes == [first.candidate] + rest.probes && s.outcome == rest.outcome {
          FromFirst(first, s.outcome.value, rest.probes, objective);
        } else {
          assert NewFirst(first, first, [], objective);
          FromFirst(first, first, [], objective);
        }
      }
    }
  }

  /** How the rounds go on after the first of them. */
  lemma RoundCases<T>(lo: real, hi: real, best: Candidate<T>, epsilon: real, maxQuality: real,
                      objective: real -> Evaluation<T>, rounds: nat)
    requires rounds > 0
    ensures var outcome := Rounds(lo, hi, best, epsilon, maxQuality, objective, rounds).outcome;
            match ProbeBoth(best, lo, hi, maxQuality, objective)
            case Halted(halted) => outcome == halted.outcome
            case Ongoing(b) =>
              var w := (hi - lo) / 2.0;
              outcome == if hi - lo < epsilon then Success(b)
                         else Rounds(b.candidate - w / 2.0, b.candidate + w / 2.0, b,
                                     epsilon, maxQuality, objective, rounds - 1).outcome
  {
    hide ProbeBoth;
  }

  /** How a search goes on after its first probe. */
  lemma SearchCases<T>(a: real, b: real, epsilon: real, maxQuality: real, objective: real -> Evaluation<T>, rounds: nat)
    ensures var outcome := SearchBetween(a, b, epsilon, maxQuality, objective, rounds).outcome;
            match objective(Abs(b - a) / 2.0)
            case Fault(e) => outcome == Failure(e)
            case Value(_, _) =>
              var first := First(a, b, objective);
              outcome == if first.quality > maxQuality then Success(first)
                         else Rounds(Min(a, b), Max(a, b), first, epsilon, maxQuality, objective, rounds).outcome
  {
    hide Rounds;
  }

  // ----- Every round halves the bracket; later probes do not drift

  /** `w` halved `k` times: the width of the bracket probed in round `k`. */
  function Halved(w: real, k: nat): real
    decreases k
  {
    if k == 0 then w else Halved(w / 2.0, k - 1)
  }

  lemma {:induction false} RoundsHalve<T>(lo: real, hi: real, best: Candidate<T>, epsilon: real, maxQuality: real,
                                          objective: real -> Evaluation<T>, rounds: nat, k: nat)
    decreases rounds
    ensures var p := Rounds(lo, hi, best, epsilon, maxQuality, objective, rounds).probes;
            2 * k + 1 < |p| ==> p[2 * k + 1] - p[2 * k] == Halved(hi - lo, k)
  {
    if rounds > 0 && k > 0 {
      var sweep, w := ProbeBoth(best, lo, hi, maxQuality, objective), (hi - lo) / 2.0;
      if sweep.Ongoing? && hi - lo >= epsilon {
        var b := sweep.best;
        RoundsHalve(b.candidate - w / 2.0, b.candidate + w / 2.0, b, epsilon, maxQuality, objective, rounds - 1, k - 1);
      }
    }
  }

  /** The two probes of round `k` are B/2^k apart, B the width of the interval. */
  lemma RoundWidths<T>(a: real, b: real, epsilon: real, maxQuality: real,
                       objective: real -> Evaluation<T>, rounds: nat, k: nat)
    ensures var p := SearchBetween(a, b, epsilon, maxQuality, objective, rounds).probes;
            2 * k + 2 < |p| ==> p[2 * k + 2] - p[2 * k + 1] == Halved(Abs(b - a), k)
  {
    if objective(Abs(b - a) / 2.0).Value? {
      RoundsHalve(Min(a, b), Max(a, b), First(a, b, objective), epsilon, maxQuality, objective, rounds, k);
    }
  }

  ghost predicate AllWithin(probes: seq<real>, centre: real, distance: real) {
    forall i :: 0 <= i < |probes| ==> Abs(probes[i] - centre) <= distance
  }

  /** Once the bracket is centred on the best, all later probes stay within its
      width of that best: w/2 + w/4 + ... never exceeds w. */
  lemma {:induction false} RoundsStayNear<T>(lo: real, hi: real, best: Candidate<T>, epsilon: real, maxQuality: real,
                                             objective: real -> Evaluation<T>, rounds: nat)
    requires lo <= hi && lo + hi == 2.0 * best.candidate
    decreases rounds
    ensures AllWithin(Rounds(lo, hi, best, epsilon, maxQuality, objective, rounds).probes, best.candidate, hi - lo)
  {
    if rounds > 0 {
      var sweep, w := ProbeBoth(best, lo, hi, maxQuality, objective), (hi - lo) / 2.0;
      if sweep.Ongoing? && hi - lo >= epsilon {
        var b := sweep.best;
        RoundsStayNear(b.candidate - w / 2.0, b.candidate + w / 2.0, b, epsilon, maxQuality, objective, rounds - 1);
      }
    }
  }

  lemma HaltIsShort<T>(best: Candidate<T>, lo: real, hi: real, maxQuality: real, objective: real -> Evaluation<T>)
    ensures var sweep := ProbeBoth(best, lo, hi, maxQuality, objective);
            sweep.Halted? ==> |sweep.search.probes| <= 2
  {
  }

  /** All probes after the third stay within half the interval of the best of
      the first three, so the search leaves [a, b] by at most that much. */
  lemma SearchStaysNear<T>(a: real, b: real, epsilon: real, maxQuality: real,
                           objective: real -> Evaluation<T>, rounds: nat)
    ensures var p := SearchBetween(a, b, epsilon, maxQuality, objective, rounds).probes;
            |p| > 3 ==>
              && objective(p[0]).Value? && ProbeBoth(First(a, b, objective), p[1], p[2], maxQuality, objective).Ongoing?
              && p[..3] == [Abs(b - a) / 2.0, Min(a, b), Max(a, b)]
              && AllWithin(p[3..], ProbeBoth(First(a, b, objective), p[1], p[2], maxQuality, objective).best.candidate,
                           Abs(b - a) / 2.0)
  {
    hide ProbeBoth, AllWithin;
    var p := SearchBetween(a, b, epsilon, maxQuality, objective, rounds).probes;
    if |p| > 3 {
      var lo, hi := Min(a, b), Max(a, b);
      HaltIsShort(First(a, b, objective), lo, hi, maxQuality, objective);
      var best := ProbeBoth(First(a, b, objective), lo, hi, maxQuality, objective).best;
      var w := (hi - lo) / 2.0;
      var rest := Rounds(best.candidate - w / 2.0, best.candidate + w / 2.0, best, epsilon, maxQuality, objective, rounds - 1);
      assert p == [p[0]] + ([lo, hi] + rest.probes);
      assert p[3..] == rest.probes;
      RoundsStayNear(best.candidate - w / 2.0, best.candidate + w / 2.0, best, epsilon, maxQuality, objective, rounds - 1);
    }
  }

  // ----- Work

  lemma {:induction false} HalvedShrinks(w: real, k: nat)
    requires w >= 0.0
    decreases k
    ensures 0.0 <= Halved(w, k) <= w
  {
    if k > 0 { HalvedShrinks(w / 2.0, k - 1); }
  }

  ghost predicate FailsByProbe<T>(s: Search<T>, objective: real -> Evaluation<T>) {
    s.outcome.Failure? && |s.probes| > 0 && objective(s.probes[|s.probes| - 1]) == Fault(s.outcome.error)
  }

  /** A bracket that gets narrower than epsilon within the allowed rounds bounds
      the probes, and leaves a failing probe as the only way to fail. */
  lemma {:induction false} RoundsBudget<T>(lo: real, hi: real, best: Candidate<T>, epsilon: real, maxQuality: real,
                                           objective: real -> Evaluation<T>, rounds: nat, k: nat)
    requires k < rounds && Halved(hi - lo, k) < epsilon
    decreases rounds
    ensures var s := Rounds(lo, hi, best, epsilon, maxQuality, objective, rounds);
            0 < |s.probes| <= 2 * k + 2 && (s.outcome.Success? || FailsByProbe(s, objective))
  {
    var sweep, w := ProbeBoth(best, lo, hi, maxQuality, objective), (hi - lo) / 2.0;
    if sweep.Ongoing? && hi - lo >= epsilon {
      var b := sweep.best;
      RoundsBudget(b.candidate - w / 2.0, b.candidate + w / 2.0, b, epsilon, maxQuality, objective, rounds - 1, k - 1);
    }
  }

  lemma HalvedEightTimes(w: real)
    ensures Halved(w, 8) == w / 256.0
  {
    calc {
      Halved(w, 8);
      Halved(w / 2.0, 7);
      Halved(w / 4.0, 6);
      Halved(w / 8.0, 5);
      Halved(w / 16.0, 4);
      Halved(w / 32.0, 3);
      Halved(w / 64.0, 2);
      Halved(w / 128.0, 1);
      w / 256.0;
    }
  }

  /** A search of a validated template: breadth below pi/2, half a degree of
      precision. At most 19 evaluations, whatever the objective returns, and no
      failure but that of the last probe; so never ErrMaxIterations. */
  lemma ValidatedTemplateBudget<T>(initialAngle: real, breadth: real, pi: real, maxQuality: real,
                                   objective: real -> Evaluation<T>, rounds: nat)
    requires pi > 0.0 && 0.0 <= breadth < pi / 2.0
    requires rounds >= 9
    ensures var s := SearchBetween(initialAngle - breadth / 2.0, initialAngle + breadth / 2.0,
                                   0.5 / 180.0 * pi, maxQuality, objective, rounds);
            |s.probes| <= 19 && (s.outcome.Success? || FailsByProbe(s, objective))
  {
    var a, b := initialAngle - breadth / 2.0, initialAngle + breadth / 2.0;
    var epsilon := 0.5 / 180.0 * pi;
    HalvedEightTimes(breadth);
    assert Halved(breadth, 8) < epsilon;
    assert Min(a, b) == a && Max(a, b) == b && b - a == breadth;
    if objective(Abs(b - a) / 2.0).Value? {
      RoundsBudget(a, b, First(a, b, objective), epsilon, maxQuality, objective, rounds, 8);
    }
  }

  /** A bracket still at least epsilon wide in the last allowed round: the search
      can only succeed by exceeding the maximum quality. */
  lemma {:induction false} RoundsExhausted<T>(lo: real, hi: real, best: Candidate<T>, epsilon: real, maxQuality: real,
                                              objective: real -> Evaluation<T>, rounds: nat)
    requires rounds > 0 && lo <= hi && Halved(hi - lo, rounds - 1) >= epsilon
    decreases rounds
    ensures var s := Rounds(lo, hi, best, epsilon, maxQuality, objective, rounds);
            if s.outcome.Success? then s.outcome.value.quality > maxQuality
            else FailsByProbe(s, objective) || s.outcome.error == ErrMaxIterations
  {
    HalvedShrinks(hi - lo, rounds - 1);
    var sweep, w := ProbeBoth(best, lo, hi, maxQuality, objective), (hi - lo) / 2.0;
    if sweep.Ongoing? && rounds > 1 {
      var b := sweep.best;
      RoundsExhausted(b.candidate - w / 2.0, b.candidate + w / 2.0, b, epsilon, maxQuality, objective, rounds - 1);
    }
  }

  /** Which searches can end by width: exactly those whose bracket is narrower
      than epsilon in the last allowed round. The others end by a probe that is
      good enough, by a failing probe, or with ErrMaxIterations. */
  lemma SearchExhausted<T>(a: real, b: real, epsilon: real, maxQuality: real,
                           objective: real -> Evaluation<T>, rounds: nat)
    requires rounds > 0
    ensures var s := SearchBetween(a, b, epsilon, maxQuality, objective, rounds);
            if Halved(Abs(b - a), rounds - 1) < epsilon then
              s.outcome.Success? || FailsByProbe(s, objective)
            else if s.outcome.Success? then
              s.outcome.value.quality > maxQuality
            else
              FailsByProbe(s, objective) || s.outcome.error == ErrMaxIterations
  {
    if objective(Abs(b - a) / 2.0).Value? {
      var first := First(a, b, objective);
      if Halved(Abs(b - a), rounds - 1) < epsilon {
        RoundsBudget(Min(a, b), Max(a, b), first, epsilon, maxQuality, objective, rounds, rounds - 1);
      } else {
        RoundsExhausted(Min(a, b), Max(a, b), first, epsilon, maxQuality, objective, rounds);
      }
    }
  }

  // ----- Convergence

  /** Quality strictly rises towards `peak` from both sides. */
  ghost predicate StrictlyUnimodal<T>(objective: real -> Evaluation<T>, peak: real) {
    forall y, z :: objective(y).Value? && objective(z).Value? && (y < z <= peak || peak <= z < y)
                   ==> objective(y).quality < objective(z).quality
  }

  /** Quality strictly falls with the distance from `peak`. */
  ghost predicate FallsWithDistance<T>(objective: real -> Evaluation<T>, peak: real) {
    forall y, z :: objective(y).Value? && objective(z).Value? && Abs(z - peak) < Abs(y - peak)
                   ==> objective(y).quality < objective(z).quality
  }

  /** A search that succeeded either found a quality above the maximum, or ended
      within `distance` of the peak. */
  predicate EndsNear<T>(outcome: Result<Candidate<T>, Error>, maxQuality: real, peak: real, distance: real) {
    outcome.Success? ==> outcome.value.quality > maxQuality || Abs(outcome.value.candidate - peak) < distance
  }

  /** How far the first probe misses the midpoint of [a, b], at most B/2. */
  function Misplacement(a: real, b: real): real {
    Min(Abs(Min(a, b)), Abs(b - a) / 2.0)
  }

  /** A round centred on the best halves the distance to the peak, up to the slack. */
  lemma ApproachPeak<T>(best: Candidate<T>, lo: real, hi: real, maxQuality: real,
                        objective: real -> Evaluation<T>, peak: real, slack: real)
    requires StrictlyUnimodal(objective, peak) && Genuine(best, objective)
    requires lo <= hi && lo + hi == 2.0 * best.candidate
    requires slack >= 0.0 && Abs(best.candidate - peak) <= hi - lo + slack
    ensures var sweep := ProbeBoth(best, lo, hi, maxQuality, objective);
            sweep.Ongoing? ==> Genuine(sweep.best, objective)
                               && Abs(sweep.best.candidate - peak) <= (hi - lo) / 2.0 + slack
  {
  }

  /** The first three probes leave the peak within B/2 of the best, up to the
      misplacement of the first. */
  lemma FirstThree<T>(a: real, b: real, maxQuality: real, objective: real -> Evaluation<T>, peak: real, slack: real)
    requires StrictlyUnimodal(objective, peak) && Min(a, b) <= peak <= Max(a, b)
    requires objective(Abs(b - a) / 2.0).Value?
    requires slack == Misplacement(a, b) || (slack == 0.0 && FallsWithDistance(objective, peak))
    ensures var sweep := ProbeBoth(First(a, b, objective), Min(a, b), Max(a, b), maxQuality, objective);
            sweep.Ongoing? ==> Genuine(sweep.best, objective)
                               && Abs(sweep.best.candidate - peak) <= Abs(b - a) / 2.0 + slack
  {
  }

  lemma {:induction false} RoundsConverge<T>(lo: real, hi: real, best: Candidate<T>, epsilon: real, maxQuality: real,
                                             objective: real -> Evaluation<T>, rounds: nat, peak: real, slack: real)
    requires StrictlyUnimodal(objective, peak) && Genuine(best, objective)
    requires lo <= hi && lo + hi == 2.0 * best.candidate
    requires slack >= 0.0 && Abs(best.candidate - peak) <= hi - lo + slack
    decreases rounds
    ensures EndsNear(Rounds(lo, hi, best, epsilon, maxQuality, objective, rounds).outcome, maxQuality, peak,
                     epsilon / 2.0 + slack)
  {
    if rounds > 0 {
      ApproachPeak(best, lo, hi, maxQuality, objective, peak, slack);
      var sweep, w := ProbeBoth(best, lo, hi, maxQuality, objective), (hi - lo) / 2.0;
      if sweep.Ongoing? && hi - lo >= epsilon {
        var b := sweep.best;
        RoundsConverge(b.candidate - w / 2.0, b.candidate + w / 2.0, b, epsilon, maxQuality, objective, rounds - 1, peak, slack);
      }
    }
  }

  /** A search that was not cut short ends within epsilon/2 of the peak, plus the
      misplacement of its first probe; an objective that falls with the distance
      from the peak pays nothing for that misplacement. */
  lemma SearchConverges<T>(a: real, b: real, epsilon: real, maxQuality: real,
                           objective: real -> Evaluation<T>, rounds: nat, peak: real, slack: real)
    requires StrictlyUnimodal(objective, peak) && Min(a, b) <= peak <= Max(a, b)
    requires slack == Misplacement(a, b) || (slack == 0.0 && FallsWithDistance(objective, peak))
    ensures EndsNear(SearchBetween(a, b, epsilon, maxQuality, objective, rounds).outcome, maxQuality, peak, epsilon / 2.0 + slack)
  {
    hide StrictlyUnimodal, FallsWithDistance;
    var lo, hi := Min(a, b), Max(a, b);
    if rounds > 0 && objective(Abs(b - a) / 2.0).Value? {
      FirstThree(a, b, maxQuality, objective, peak, slack);
      var sweep, w := ProbeBoth(First(a, b, objective), lo, hi, maxQuality, objective), (hi - lo) / 2.0;
      if sweep.Ongoing? && hi - lo >= epsilon {
        var best := sweep.best;
        RoundsConverge(best.candidate - w / 2.0, best.candidate + w / 2.0, best,
                       epsilon, maxQuality, objective, rounds - 1, peak, slack);
      }
    }
  }

  // ----- Exactly when every unimodal objective is found

  /** Strictly unimodal, but everything on the far side of the peak is worse than
      any point of the near side within `drop` of it. */
  function Cliff<T>(t: T, peak: real, drop: real, rising: bool): real -> Evaluation<T>
    requires drop >= 0.0
  {
    y => Value(t, if rising then (if y < peak then y - peak - drop else peak - y)
                  else (if y > peak then peak - y - drop else y - peak))
  }

  lemma CliffIsUnimodal<T>(t: T, peak: real, drop: real, rising: bool)
    requires drop >= 0.0
    ensures StrictlyUnimodal(Cliff(t, peak, drop, rising), peak)
  {
  }

  /** The rounds cannot bring back a search that starts too far from the peak. */
  lemma TooFarToReturn<T>(a: real, b: real, epsilon: real, objective: real -> Evaluation<T>, rounds: nat, peak: real)
    requires rounds > 0 && Halved(Abs(b - a), rounds - 1) < epsilon
    requires forall y :: objective(y).Value? && objective(y).quality <= 0.0
    requires var far := ProbeBoth(First(a, b, objective), Min(a, b), Max(a, b), 0.0, objective);
             far.Ongoing? && Abs(far.best.candidate - peak) >= Abs(b - a) / 2.0 + epsilon / 2.0
    ensures var outcome := SearchBetween(a, b, epsilon, 0.0, objective, rounds).outcome;
            outcome.Success? && !EndsNear(outcome, 0.0, peak, epsilon / 2.0)
  {
    hide Rounds, ProbeBoth, SearchBetween, Halved, EndsNear;
    CannotFail(a, b, epsilon, objective, rounds);
    var lo, hi, first := Min(a, b), Max(a, b), First(a, b, objective);
    SearchCases(a, b, epsilon, 0.0, objective, rounds);
    RoundCases(lo, hi, first, epsilon, 0.0, objective, rounds);
    ProbeBothBest(first, lo, hi, 0.0, objective);
    var far, w := ProbeBoth(first, lo, hi, 0.0, objective).best, Abs(b - a) / 2.0;
    if Abs(b - a) >= epsilon {
      RoundsEndNear(far.candidate - w / 2.0, far.candidate + w / 2.0, far, epsilon, objective, rounds - 1);
    }
    StaysFar(SearchBetween(a, b, epsilon, 0.0, objective, rounds).outcome, far, peak, w, epsilon);
  }

  lemma CannotFail<T>(a: real, b: real, epsilon: real, objective: real -> Evaluation<T>, rounds: nat)
    requires rounds > 0 && Halved(Abs(b - a), rounds - 1) < epsilon
    requires forall y :: objective(y).Value? && objective(y).quality <= 0.0
    ensures var outcome := SearchBetween(a, b, epsilon, 0.0, objective, rounds).outcome;
            outcome.Success? && outcome.value.quality <= 0.0
  {
    hide SearchBetween, Halved;
    SearchExhausted(a, b, epsilon, 0.0, objective, rounds);
    SearchReturnsBest(a, b, epsilon, 0.0, objective, rounds);
    NoFailingProbe(SearchBetween(a, b, epsilon, 0.0, objective, rounds), objective);
  }

  lemma NoFailingProbe<T>(s: Search<T>, objective: real -> Evaluation<T>)
    requires forall y :: objective(y).Value?
    ensures !FailsByProbe(s, objective)
  {
    if |s.probes| > 0 {
      var last := s.probes[|s.probes| - 1];
      assert objective(last).Value?;
    }
  }

  lemma StaysFar<T>(outcome: Result<Candidate<T>, Error>, far: Candidate<T>, peak: real, w: real, epsilon: real)
    requires outcome.Success? && outcome.value.quality <= 0.0
    requires Abs(far.candidate - peak) >= w + epsilon / 2.0 && (Abs(outcome.value.candidate - far.candidate) <= w)
    ensures !EndsNear(outcome, 0.0, peak, epsilon / 2.0)
  {
  }

  /** Rounds centred on their best cannot end further from it than their width. */
  lemma RoundsEndNear<T>(lo: real, hi: real, best: Candidate<T>, epsilon: real, objective: real -> Evaluation<T>, rounds: nat)
    requires Genuine(best, objective) && lo <= hi && lo + hi == 2.0 * best.candidate
    ensures var outcome := Rounds(lo, hi, best, epsilon, 0.0, objective, rounds).outcome;
            outcome.Success? ==> Abs(outcome.value.candidate - best.candidate) <= hi - lo
  {
    RoundsReturnBest(lo, hi, best, epsilon, 0.0, objective, rounds);
    RoundsStayNear(lo, hi, best, epsilon, 0.0, objective, rounds);
    hide Rounds;
  }

  /** A misplaced first probe loses some objective: both it and the end next to it
      lie beyond a cliff, and the search settles on the other end. */
  lemma MisplacedProbeLoses<T>(a: real, b: real, rounds: nat, t: T) returns (objective: real -> Evaluation<T>,
                               peak: real)
    requires Misplacement(a, b) > 0.0
    requires rounds > 0 && Halved(Abs(b - a), rounds - 1) < Misplacement(a, b)
    ensures StrictlyUnimodal(objective, peak) && Min(a, b) <= peak <= Max(a, b)
    ensures var outcome := SearchBetween(a, b, Misplacement(a, b), 0.0, objective, rounds).outcome;
            outcome.Success? && !EndsNear(outcome, 0.0, peak, Misplacement(a, b) / 2.0)
  {
    hide StrictlyUnimodal, SearchBetween, Halved, EndsNear, Misplacement;
    var rising := Min(a, b) > 0.0;
    peak := HiddenPeak(a, b);
    objective := Cliff(t, peak, Abs(b - a), rising);
    CliffIsUnimodal(t, peak, Abs(b - a), rising);
    SettlesFar(a, b, t);
    TooFarToReturn(a, b, Misplacement(a, b), objective, rounds, peak);
  }

  /** A peak just beyond the first probe, or beyond the end next to it. */
  function HiddenPeak(a: real, b: real): (peak: real)
    ensures Misplacement(a, b) > 0.0 ==> Min(a, b) <= peak <= Max(a, b)
  {
    var lo, hi, m, first := Min(a, b), Max(a, b), Misplacement(a, b), Abs(b - a) / 2.0;
    if lo > 0.0 then Max(first, lo) + m / 2.0 else Min(first, hi) - m / 2.0
  }

  lemma SettlesFar<T>(a: real, b: real, t: T)
    requires Misplacement(a, b) > 0.0
    ensures var m, objective := Misplacement(a, b), Cliff(t, HiddenPeak(a, b), Abs(b - a), Min(a, b) > 0.0);
            var far := ProbeBoth(First(a, b, objective), Min(a, b), Max(a, b), 0.0, objective);
            far.Ongoing? && Abs(far.best.candidate - HiddenPeak(a, b)) >= Abs(b - a) / 2.0 + m / 2.0
  {
  }

  ghost predicate AlwaysConverges<T(!new)>(a: real, b: real, rounds: nat) {
    forall epsilon: real, maxQuality: real, objective: real -> Evaluation<T>, peak: real ::
      StrictlyUnimodal(objective, peak) && Min(a, b) <= peak <= Max(a, b)
      ==> EndsNear(SearchBetween(a, b, epsilon, maxQuality, objective, rounds).outcome, maxQuality, peak, epsilon / 2.0)
  }

  /** The search finds the peak of every strictly unimodal objective on [a, b] if
      and only if its first probe is the midpoint: the lower end is zero, or the
      interval is a point. (The round limit only hides misplacements narrower than
      the last bracket, B/2^(2^20) in the source.) */
  lemma ConvergesExactlyFromZero<T(!new)>(a: real, b: real, rounds: nat, t: T)
    requires rounds > 0
    requires Misplacement(a, b) > 0.0 ==> Halved(Abs(b - a), rounds - 1) < Misplacement(a, b)
    ensures AlwaysConverges<T>(a, b, rounds) <==> (Min(a, b) == 0.0 || a == b)
  {
    if Min(a, b) == 0.0 || a == b {
      forall epsilon: real, maxQuality: real, objective: real -> Evaluation<T>, peak: real
        | StrictlyUnimodal(objective, peak) && Min(a, b) <= peak <= Max(a, b)
        ensures EndsNear(SearchBetween(a, b, epsilon, maxQuality, objective, rounds).outcome, maxQuality, peak, epsilon / 2.0)
      {
        SearchConverges(a, b, epsilon, maxQuality, objective, rounds, peak, 0.0);
      }
    } else {
      var objective, peak := MisplacedProbeLoses(a, b, rounds, t);
      var m := Misplacement(a, b);
      assert !EndsNear(SearchBetween(a, b, m, 0.0, objective, rounds).outcome, 0.0, peak, m / 2.0);
    }
  }
}
