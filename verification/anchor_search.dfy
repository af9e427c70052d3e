/** The anchor search of internal/omr/anchor.go.

    `BisectionSearch` is the loop of the source; `SearchBetween` is its
    specification, which also records every probe of the objective. float64 is
    modelled by `real`. The objective is any function, possibly failing. */
module AnchorSearch {
  import opened Omr

  datatype Evaluation<T> = Value(result: T, quality: real) | Fault(error: Error)

  datatype Candidate<T> = Candidate(result: T, candidate: real, quality: real)

  /** What a search returned, and the arguments it called the objective with. */
  datatype Search<T> = Search(outcome: Result<Candidate<T>, Error>, probes: seq<real>) {
    function After(earlier: seq<real>): Search<T> {
      Search(outcome, earlier + probes)
    }
  }

  const MAX_ROUNDS: nat := 0x10_0000

  function Min(x: real, y: real): real { if x < y then x else y }

  function Max(x: real, y: real): real { if x < y then y else x }

  function Abs(x: real): real { if x < 0.0 then -x else x }

  /** The better of the best so far and a new probe; ties keep the old one. */
  function Improve<T>(best: Candidate<T>, at: real, e: Evaluation<T>): Candidate<T>
    requires e.Value?
  {
    if e.quality > best.quality then Candidate(e.result, at, e.quality) else best
  }

  /** Probing both ends of a bracket either settles the search or leaves a best. */
  datatype Sweep<T> = Halted(search: Search<T>) | Ongoing(best: Candidate<T>)

  function ProbeOne<T>(best: Candidate<T>, at: real, maxQuality: real, objective: real -> Evaluation<T>): Sweep<T> {
    match objective(at)
    case Fault(e) => Halted(Search(Failure(e), [at]))
    case Value(_, _) =>
      var best' := Improve(best, at, objective(at));
      if best'.quality > maxQuality then Halted(Search(Success(best'), [at])) else Ongoing(best')
  }

  function ProbeBoth<T>(best: Candidate<T>, lo: real, hi: real, maxQuality: real,
                        objective: real -> Evaluation<T>): Sweep<T>
  {
    match ProbeOne(best, lo, maxQuality, objective)
    case Halted(s) => Halted(s)
    case Ongoing(best1) =>
      match ProbeOne(best1, hi, maxQuality, objective)
      case Halted(s) => Halted(s.After([lo]))
      case Ongoing(best2) => Ongoing(best2)
  }

  /** The remaining `rounds` rounds, from a bracket and the best so far. */
  function Rounds<T>(lo: real, hi: real, best: Candidate<T>, epsilon: real, maxQuality: real,
                     objective: real -> Evaluation<T>, rounds: nat): Search<T>
    decreases rounds
  {
    if rounds == 0 then
      Search(Failure(ErrMaxIterations), [])
    else
      match ProbeBoth(best, lo, hi, maxQuality, objective)
      case Halted(s) => s
      case Ongoing(best') =>
        if hi - lo < epsilon then
          Search(Success(best'), [lo, hi])
        else
          var w := (hi - lo) / 2.0;
          Rounds(best'.candidate - w / 2.0, best'.candidate + w / 2.0, best',
                 epsilon, maxQuality, objective, rounds - 1).After([lo, hi])
  }

  function SearchBetween<T>(a: real, b: real, epsilon: real, maxQuality: real,
                            objective: real -> Evaluation<T>, rounds: nat): Search<T>
  {
    var lo, hi := Min(a, b), Max(a, b);
    var first := (hi - lo) / 2.0;
    match objective(first)
    case Fault(e) => Search(Failure(e), [first])
    case Value(r, q) =>
      var best := Candidate(r, first, q);
      if q > maxQuality then
        Search(Success(best), [first])
      else
        Rounds(lo, hi, best, epsilon, maxQuality, objective, rounds).After([first])
  }

  /** The inner loop of a round: the ends of the bracket are probed in order. */
  method Probe<T>(start: Candidate<T>, lo: real, hi: real, maxQuality: real, objective: real -> Evaluation<T>)
    returns (r: Sweep<T>)
    ensures r == ProbeBoth(start, lo, hi, maxQuality, objective)
  {
    var best := start;
    var candidates := [lo, hi];
    for i := 0 to 2
      invariant i == 0 ==> best == start
      invariant i == 1 ==> Ongoing(best) == ProbeOne(start, lo, maxQuality, objective)
      invariant i == 2 ==> Ongoing(best) == ProbeBoth(start, lo, hi, maxQuality, objective)
    {
      var e := objective(candidates[i]);
      if e.Fault? {
        return Halted(Search(Failure(e.error), candidates[..i + 1]));
      }
      best := Improve(best, candidates[i], e);
      if best.quality > maxQuality {
        return Halted(Search(Success(best), candidates[..i + 1]));
      }
    }
    r := Ongoing(best);
  }

  /** What one round makes of a search that already probed `earlier`. */
  lemma OneRound<T>(lo: real, hi: real, best: Candidate<T>, epsilon: real, maxQuality: real,
                    objective: real -> Evaluation<T>, rounds: nat, earlier: seq<real>)
    requires rounds > 0
    ensures match ProbeBoth(best, lo, hi, maxQuality, objective)
            case Halted(s) => Rounds(lo, hi, best, epsilon, maxQuality, objective, rounds) == s
            case Ongoing(best') =>
              if hi - lo < epsilon then
                Rounds(lo, hi, best, epsilon, maxQuality, objective, rounds) == Search(Success(best'), [lo, hi])
              else
                var w := (hi - lo) / 2.0;
                Rounds(lo, hi, best, epsilon, maxQuality, objective, rounds).After(earlier)
                == Rounds(best'.candidate - w / 2.0, best'.candidate + w / 2.0, best',
                          epsilon, maxQuality, objective, rounds - 1).After(earlier + [lo, hi])
  {
    hide ProbeBoth;
    match ProbeBoth(best, lo, hi, maxQuality, objective)
    case Halted(_) =>
    case Ongoing(best') =>
      var w := (hi - lo) / 2.0;
      var next := Rounds(best'.candidate - w / 2.0, best'.candidate + w / 2.0, best', epsilon, maxQuality, objective, rounds - 1);
      assert earlier + ([lo, hi] + next.probes) == earlier + [lo, hi] + next.probes;
  }

  lemma NoRounds<T>(lo: real, hi: real, best: Candidate<T>, epsilon: real, maxQuality: real,
                    objective: real -> Evaluation<T>, earlier: seq<real>)
    ensures Rounds(lo, hi, best, epsilon, maxQuality, objective, 0).After(earlier)
            == Search(Failure(ErrMaxIterations), earlier)
  {
    assert earlier + [] == earlier;
  }

  method BisectionSearch<T>(a: real, b: real, epsilon: real, maxQuality: real,
                            objective: real -> Evaluation<T>)
    returns (r: Result<Candidate<T>, Error>, ghost probes: seq<real>)
    ensures r == SearchBetween(a, b, epsilon, maxQuality, objective, MAX_ROUNDS).outcome
    ensures probes == SearchBetween(a, b, epsilon, maxQuality, objective, MAX_ROUNDS).probes
  {
    hide Rounds, ProbeBoth;
    var lo, hi := Min(a, b), Max(a, b);
    ghost var spec := SearchBetween(a, b, epsilon, maxQuality, objective, MAX_ROUNDS);

    var middle := (hi - lo) / 2.0;
    var e := objective(middle);
    probes := [middle];
    if e.Fault? {
      return Failure(e.error), probes;
    }
    var best := Candidate(e.result, middle, e.quality);
    if e.quality > maxQuality {
      return Success(best), probes;
    }

    for round := 0 to MAX_ROUNDS
      invariant spec == Rounds(lo, hi, best, epsilon, maxQuality, objective, MAX_ROUNDS - round).After(probes)
    {
      OneRound(lo, hi, best, epsilon, maxQuality, objective, MAX_ROUNDS - round, probes);
      var sweep := Probe(best, lo, hi, maxQuality, objective);
      match sweep {
        case Halted(s) =>
          return s.outcome, probes + s.probes;
        case Ongoing(best') =>
          best := best';
          if hi - lo < epsilon {
            return Success(best), probes + [lo, hi];
          }
          probes := probes + [lo, hi];
          var breadth := (hi - lo) / 2.0;
          lo, hi := best.candidate - breadth / 2.0, best.candidate + breadth / 2.0;
      }
    }
    NoRounds(lo, hi, best, epsilon, maxQuality, objective, probes);
    r := Failure(ErrMaxIterations);
  }
}
