/** `ForEach` with workers that start late: for which inputs and worker counts every
    schedule is safe, with the capacity of the output. */
module ForEachRaces {
  import opened ForEach
  import opened ForEachProofs
  import opened ForEachStops

  /** Everything is provided, the first worker has answered what it received, and no
      other has started. It has left once a callback failed. */
  predicate Alone(c: Config, s: State) {
    && s.taken <= |c.inputs| == s.provided && s.inputClosed && !s.outClosed && s.faults == 0 && |s.out| == s.taken
    && |s.workers| == c.parallelism > 0 && s.spawned == s.threads == 1
    && (s.workers[0] == if Failing(c.inputs, s.taken) == 0 then Idle else Leaving(true))
    && forall i :: 0 < i < |s.workers| ==> s.workers[i].Unborn?
  }

  lemma FirstAnswers(c: Config, s: State) returns (s': State)
    requires c.parallelism > 1 && Reachable(c, s, false) && Alone(c, s) && s.workers[0].Idle?
    requires s.taken < |c.inputs| && s.taken < c.parallelism
    ensures Reachable(c, s', false) && Alone(c, s') && s'.taken == s.taken + 1
  {
    hide Reachable;
    s' := Next(c, s, Receive(0), false);
    if !c.inputs[s.taken].Erroneous? {
      s' := Next(c, s', Call(0), false);
    }
    s' := Next(c, s', Send(0), false);
  }

  /** The answers of the first worker fit in the output, or it fails before it is full. */
  lemma FirstHasRoom(c: Config, s: State)
    requires c.parallelism > 1 && !Protected(c) && Alone(c, s) && s.workers[0].Idle? && s.taken < |c.inputs|
    ensures s.taken < c.parallelism
  {
    hide Failing;
    if s.taken >= c.parallelism { FailingGrows(c.inputs, c.parallelism, s.taken); }
  }

  /** The first worker leaves before the second starts, and closes the output. */
  lemma FirstCloses(c: Config) returns (s: State)
    requires c.parallelism > 1 && !Protected(c)
    ensures Reachable(c, s, false) && s.outClosed && s.faults == 0 && s.taken <= s.provided == |c.inputs| && s.inputClosed
    ensures |s.workers| == c.parallelism && s.spawned == 1 && s.threads == 0 && s.workers[1].Unborn?
  {
    s := ProvideAll(c, false);
    s := Next(c, s, Spawn, false);
    hide Reachable, Protected;
    while s.workers[0].Idle? && s.taken < |c.inputs|
      invariant Reachable(c, s, false) && Alone(c, s)
      decreases |c.inputs| - s.taken
    {
      FirstHasRoom(c, s);
      s := FirstAnswers(c, s);
    }
    if s.workers[0].Idle? {
      s := Next(c, s, SeeEnd(0), false);
    }
    s := Next(c, s, Lower(0), false);
    s := Next(c, s, Close(0), false);
  }

  /** The second worker then sends on the closed output, or closes it again. */
  lemma LateWorkerFaults(c: Config) returns (s: State)
    requires c.parallelism > 1 && !Protected(c)
    ensures Reachable(c, s, false) && s.faults == 1
  {
    s := FirstCloses(c);
    hide Reachable;
    s := Next(c, s, Spawn, false);
    if s.taken < |c.inputs| {
      var x := c.inputs[s.taken];
      s := Next(c, s, Receive(1), false);
      if !x.Erroneous? {
        s := Next(c, s, Call(1), false);
      }
      s := Next(c, s, Send(1), false);
    } else {
      s := Next(c, s, SeeEnd(1), false);
      s := Next(c, s, Lower(1), false);
      s := Next(c, s, Close(1), false);
    }
  }

  /** No schedule sends on the closed output, or closes it twice, if and only if there
      is a single worker, or there are more sets than workers and none of the first
      sets, as many as there are workers, makes the callback fail. */
  lemma SafeExactly(c: Config)
    requires c.parallelism > 0
    ensures (forall s :: Reachable(c, s, false) ==> s.faults == 0)
            <==> c.parallelism == 1 || (|c.inputs| > c.parallelism && Failing(c.inputs, c.parallelism) == 0)
  {
    if Protected(c) {
      forall s | Reachable(c, s, false)
        ensures s.faults == 0
      {
        ReachableInv(c, s, false);
      }
    } else {
      var s := LateWorkerFaults(c);
    }
  }

  lemma {:induction false} Relaxed(c: Config, s: State, steps: seq<Step>)
    requires Possible(c, s, steps, true)
    ensures Possible(c, s, steps, false) && Run(c, s, steps, false) == Run(c, s, steps, true)
    decreases |steps|
  {
    hide Enabled, HasRoom, Disciplined, Apply;
    if steps != [] { Relaxed(c, Apply(c, s, steps[0]), steps[1..]); }
  }

  lemma RelaxedReach(c: Config, s: State)
    requires Reachable(c, s, true)
    ensures Reachable(c, s, false)
  {
    var steps :| Possible(c, Init(c), steps, true) && Run(c, Init(c), steps, true) == s;
    hide Possible, Run, Init;
    Relaxed(c, Init(c), steps);
  }

  /** Every schedule is safe and answers every set before the output closes, if and only
      if the input keeps schedules disciplined and too few of its sets fail. */
  lemma AlwaysRightExactly(c: Config)
    requires c.parallelism > 0
    ensures (forall s :: Reachable(c, s, false) ==> s.faults == 0 && (s.outClosed ==> s.taken == |c.inputs|))
            <==> Protected(c) && FewFailures(c)
  {
    hide Reachable, Protected, FewFailures;
    if !Protected(c) {
      OneIsProtected(c);
      var s := LateWorkerFaults(c);
    } else if !FewFailures(c) {
      var s := StopsEarly(c);
      RelaxedReach(c, s);
    } else {
      forall s | Reachable(c, s, false)
        ensures s.faults == 0 && (s.outClosed ==> s.taken == |c.inputs|)
      {
        EachReceivedIsAnsweredOnce(c, s, false);
        if s.outClosed { AllAreAnswered(c, s, false); }
      }
    }
  }

  lemma OneIsProtected(c: Config)
    ensures c.parallelism == 1 ==> Protected(c)
  {
  }

  /** Two workers and three sets that succeed: the first worker waits for room until the
      second has started, and nothing can fault. */
  lemma ThreeSetsAreSafe(s: State)
    requires Reachable(Config([CallbackSucceeds, CallbackSucceeds, CallbackSucceeds], 2), s, false)
    ensures s.faults == 0
  {
    var c := Config([CallbackSucceeds, CallbackSucceeds, CallbackSucceeds], 2);
    assert Failing(c.inputs, 2) == 0;
    hide Reachable;
    EachReceivedIsAnsweredOnce(c, s, false);
  }
}
