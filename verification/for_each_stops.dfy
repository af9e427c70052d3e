/** A run of `ForEach` that stops early: if enough sets before the last one make the
    callback fail, all workers can leave before the last set is received. */
module ForEachStops {
  import opened ForEach
  import opened ForEachProofs

  lemma Stay(c: Config, disciplined: bool)
    ensures Reachable(c, Init(c), disciplined)
  {
    assert Possible(c, Init(c), [], disciplined) && Run(c, Init(c), [], disciplined) == Init(c);
  }

  lemma {:induction false} Appended(c: Config, s: State, steps: seq<Step>, step: Step, disciplined: bool)
    requires Possible(c, s, steps, disciplined) && Allowed(c, Run(c, s, steps, disciplined), step, disciplined)
    ensures Possible(c, s, steps + [step], disciplined)
            && Run(c, s, steps + [step], disciplined) == Apply(c, Run(c, s, steps, disciplined), step)
    decreases |steps|
  {
    hide Enabled, HasRoom, Disciplined, Apply;
    if steps == [] {
      assert steps + [step] == [step] && [step][1..] == [];
    } else {
      Appended(c, Apply(c, s, steps[0]), steps[1..], step, disciplined);
      assert (steps + [step])[1..] == steps[1..] + [step];
    }
  }

  /** One more step. */
  lemma Next(c: Config, t: State, step: Step, disciplined: bool) returns (t': State)
    requires Reachable(c, t, disciplined) && Allowed(c, t, step, disciplined)
    ensures Reachable(c, t', disciplined) && t' == Apply(c, t, step)
  {
    var steps :| Possible(c, Init(c), steps, disciplined) && Run(c, Init(c), steps, disciplined) == t;
    hide Enabled, HasRoom, Disciplined, Apply;
    Appended(c, Init(c), steps, step, disciplined);
    t' := Apply(c, t, step);
  }

  /** All sets are provided. */
  lemma {:induction false} ProvideAll(c: Config, disciplined: bool) returns (t: State)
    ensures Reachable(c, t, disciplined) && t == Init(c).(provided := |c.inputs|, inputClosed := true)
  {
    t := Init(c);
    Stay(c, disciplined);
    hide Reachable;
    while t.provided < |c.inputs|
      invariant t.provided <= |c.inputs| && t == Init(c).(provided := t.provided) && Reachable(c, t, disciplined)
      decreases |c.inputs| - t.provided
    {
      t := Next(c, t, Provide, disciplined);
    }
    t := Next(c, t, CloseInput, disciplined);
  }

  /** Everything is provided and all workers are started; `t` sets are received and
      answered, and the first workers are leaving, one for each failure. */
  predicate Sequential(c: Config, s: State, t: nat) {
    && t <= |c.inputs| && s.taken == t && s.provided == |c.inputs| && s.inputClosed && !s.outClosed
    && |s.workers| == c.parallelism == s.spawned == s.threads && Failing(c.inputs, t) <= c.parallelism
    && (forall i :: 0 <= i < |s.workers| ==> s.workers[i] == if i < Failing(c.inputs, t) then Leaving(true) else Idle)
  }

  lemma StartAll(c: Config) returns (t: State)
    ensures Reachable(c, t, true) && Sequential(c, t, 0)
  {
    t := ProvideAll(c, true);
    hide Reachable;
    while t.spawned < c.parallelism
      invariant t.spawned == t.threads <= c.parallelism && Reachable(c, t, true)
      invariant t == Init(c).(provided := |c.inputs|, inputClosed := true,
                              spawned := t.spawned, threads := t.threads, workers := t.workers)
      invariant |t.workers| == c.parallelism
      invariant forall i :: 0 <= i < |t.workers| ==> t.workers[i] == if i < t.spawned then Idle else Unborn
      decreases c.parallelism - t.spawned
    {
      t := Next(c, t, Spawn, true);
    }
  }

  lemma AnswerNext(c: Config, s: State) returns (s': State)
    requires Reachable(c, s, true) && Sequential(c, s, s.taken) && s.taken < |c.inputs|
             && Failing(c.inputs, s.taken) < c.parallelism
    ensures Reachable(c, s', true) && Sequential(c, s', s.taken + 1)
  {
    hide Reachable;
    var i, x := Failing(c.inputs, s.taken), c.inputs[s.taken];
    s' := Next(c, s, Receive(i), true);
    if !x.Erroneous? {
      s' := Next(c, s', Call(i), true);
    }
    s' := Next(c, s', Send(i), true);
  }

  /** The first `k` workers are gone, the others leaving. */
  predicate Retreating(c: Config, s: State, k: nat) {
    && k < c.parallelism == |s.workers| && s.spawned == c.parallelism && s.threads == c.parallelism - k && !s.outClosed
    && (forall i :: 0 <= i < |s.workers| ==> s.workers[i] == if i < k then Gone(true) else Leaving(true))
  }

  lemma {:induction false} Retreat(c: Config, s: State, k: nat) returns (s': State)
    requires Reachable(c, s, true) && Retreating(c, s, k)
    ensures Reachable(c, s', true) && s'.outClosed && s'.taken == s.taken
    decreases c.parallelism - k
  {
    hide Reachable;
    s' := Next(c, s, Lower(k), true);
    if k + 1 < c.parallelism {
      s' := Retreat(c, s', k + 1);
    } else {
      s' := Next(c, s', Close(k), true);
    }
  }

  lemma StopsEarly(c: Config) returns (s: State)
    requires c.parallelism > 0 && !FewFailures(c)
    ensures Reachable(c, s, true) && s.outClosed && s.taken < |c.inputs|
  {
    s := StartAll(c);
    hide Reachable;
    while Failing(c.inputs, s.taken) < c.parallelism
      invariant Reachable(c, s, true) && Sequential(c, s, s.taken) && s.taken < |c.inputs|
      decreases |c.inputs| - s.taken
    {
      s := AnswerNext(c, s);
    }
    s := Retreat(c, s, 0);
  }

  /** Every set is answered before the output closes, in every disciplined run, if and only if
      fewer sets than there are workers fail among all but the last. */
  lemma AnswersAllExactly(c: Config)
    requires c.parallelism > 0
    ensures (forall s :: Reachable(c, s, true) && s.outClosed ==> s.taken == |c.inputs|) <==> FewFailures(c)
  {
    hide Reachable, FewFailures;
    if FewFailures(c) {
      forall s | Reachable(c, s, true) && s.outClosed
        ensures s.taken == |c.inputs|
      {
        AllAreAnswered(c, s, true);
      }
    } else {
      var s := StopsEarly(c);
    }
  }
}
