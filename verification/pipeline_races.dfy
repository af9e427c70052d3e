/** For which documents the pipeline needs the hypotheses on the schedule: the source
    does not enforce them, and each protects exactly the documents stated here. */
module PipelineRaces {
  import opened Crew
  import opened PipelineCrews
  import opened PipelineFlow
  import opened PipelineProofs
  import opened PipelineProgress
  import opened PipelineWaiting
  import opened PipelineDeadlocks
  import P = Pipeline

  // ----- When a hypothesis holds by itself

  /** The counter of `PreprocessStream` reaches zero, and the output closes, only after the
      first result was sent, if the blocks do not fit in the output and one more. */
  predicate TooManyToClose(c: P.Config) { |AllBlocks(c)| > c.parallelism + 1 }

  /** The last worker alive holds no set, and no other does. */
  lemma LastIsQuiet(ws: seq<P.Worker>, threads: int, closed: bool, i: nat)
    requires CrewInv(WLives(ws), threads, closed) && threads == 1 && i < |ws| && ws[i].Leaving?
    ensures forall j :: 0 <= j < |ws| ==> Quiet(ws[j])
  {
    forall j | 0 <= j < |ws|
      ensures Quiet(ws[j])
    {
      if j != i { CountOne(WLives(ws), i, j); }
    }
  }

  /** A worker that could close the output early has seen all blocks through. */
  lemma EarlyEndNeedsRoom(c: P.Config, s: P.State, step: P.Step)
    requires Inv(c, s) && Filled(c, s) && P.Enabled(c, s, step) && !P.WorkersFirst(s, step)
    ensures !TooManyToClose(c)
  {
    hide RenderInv, FlowInv, WLives, AllBlocks, CrewInv;
    var i := step.i;
    assert Ended(s.workers[i]) && s.main.Spawning?;
    BlocksUnderWay(c, s);
    if step.Lower? {
      LastIsQuiet(s.workers, s.threads, s.preprocessed.closed, i);
    } else {
      OthersGone(s.workers, s.threads, s.preprocessed.closed, i);
    }
  }

  /** With one sub-document the renderer that lowers the counter is the only one. */
  lemma OneRenderer(c: P.Config, s: P.State, step: P.Step)
    requires Inv(c, s) && |c.docs| == 1 && P.Enabled(c, s, step)
    ensures P.RenderersFirst(s, step)
  {
    hide CrewInv, AllBlocks, ThreadInv, FlowInv;
  }

  /** Whether these rules, or the document, meet each hypothesis. */
  predicate Protected(c: P.Config, rules: P.Rules) {
    && (rules.renderersFirst || |c.docs| == 1)
    && (rules.workersFirst || (rules.bounded && TooManyToClose(c)))
  }

  lemma StepIsCareful(c: P.Config, s: P.State, step: P.Step, rules: P.Rules)
    requires Inv(c, s) && (rules.bounded ==> Filled(c, s)) && Protected(c, rules) && P.Allowed(c, s, step, rules)
    ensures P.Allowed(c, s, step, P.Rules(true, true, rules.bounded))
  {
    hide Inv, Filled, TooManyToClose, P.Enabled, P.RenderersFirst, P.WorkersFirst, P.HasRoom;
    if !rules.renderersFirst { OneRenderer(c, s, step); }
    if !P.WorkersFirst(s, step) { EarlyEndNeedsRoom(c, s, step); }
  }

  lemma {:induction false} RunIsCareful(c: P.Config, s: P.State, steps: seq<P.Step>, t: P.State, rules: P.Rules)
    requires ValidConfig(c) && Inv(c, s) && (rules.bounded ==> Filled(c, s)) && Protected(c, rules)
    requires P.Goes(c, s, steps, t, rules)
    ensures Inv(c, t)
    decreases |steps|
  {
    hide ValidConfig, Inv, Filled, Protected, P.Apply, P.Enabled, P.RenderersFirst, P.WorkersFirst, P.HasRoom;
    if steps != [] {
      StepIsCareful(c, s, steps[0], rules);
      StepKeeps(c, s, steps[0]);
      if rules.bounded { FilledStep(c, s, steps[0]); }
      RunIsCareful(c, P.Apply(c, s, steps[0]), steps[1..], t, rules);
    }
  }

  /** A protected document is free of faults. */
  lemma ProtectedIsSafe(c: P.Config, s: P.State, rules: P.Rules)
    requires ValidConfig(c) && Protected(c, rules) && P.Reachable(c, s, rules)
    ensures s.faults == 0
  {
    var steps :| P.Goes(c, P.Init(c), steps, s, rules);
    assert Filled(c, P.Init(c));
    hide ValidConfig, Protected, Filled, RenderInv, ThreadInv, FlowInv, P.Init, P.Goes;
    InvStart(c);
    RunIsCareful(c, P.Init(c), steps, s, rules);
  }

  // ----- A renderer that starts late

  /** Renderer `r` alone has started, and is at block `k` of its sub-document. */
  predicate OnlyRenderer(c: P.Config, s: P.State, r: nat, k: nat) {
    && |s.renderers| == |c.docs| && r < |c.docs| && k <= |c.docs[r]|
    && s.rendering == 1 && s.renderers[r] == P.At(k)
    && forall i :: r < i < |s.renderers| ==> s.renderers[i].NotStarted?
  }

  /** No page failed to render. */
  predicate AllRendered(s: P.State) {
    forall k :: 0 <= k < |s.rendered.hist| ==> !s.rendered.hist[k].failed
  }

  /** Every worker is in the same state. */
  predicate AllAre(s: P.State, w: P.Worker) {
    forall i :: 0 <= i < |s.workers| ==> s.workers[i] == w
  }

  /** The rendered channel is open, and everything sent on it or on the output was
      received. Blocks without pages cannot be calibrated on. */
  predicate CaughtUp(c: P.Config, s: P.State) {
    && !s.rendered.closed && s.rendered.taken == |s.rendered.hist| && AllRendered(s)
    && |s.workers| == c.parallelism > 0
    && !s.preprocessed.closed && s.preprocessed.taken == |s.preprocessed.hist|
    && ((s.main.AwaitFirst? && AllAre(s, P.Unborn)) || (s.main.Returned? && AllAre(s, P.Idle))
        || (s.main.Failed? && c.blockSize == 0))
  }

  lemma StepReaches(c: P.Config, s: P.State, step: P.Step, rules: P.Rules) returns (t: P.State)
    requires P.Reachable(c, s, rules) && P.Allowed(c, s, step, rules)
    ensures P.Reachable(c, t, rules) && t == P.Apply(c, s, step)
  {
    ReachNext(c, s, step, rules);
    t := P.Apply(c, s, step);
  }

  /** The first set is received and calibrated on, the workers start, and the consumer
      takes its result. */
  lemma FirstSetServed(c: P.Config, s: P.State, bounded: bool) returns (t: P.State)
    requires P.Reachable(c, s, P.Rules(true, true, bounded)) && s.main.AwaitFirst? && AllAre(s, P.Unborn)
    requires |s.workers| == c.parallelism > 0 && AllRendered(s)
    requires !s.rendered.closed && |s.rendered.hist| == s.rendered.taken + 1
    requires s.rendered.hist[s.rendered.taken].pages == [] <==> c.blockSize == 0
    requires !s.preprocessed.closed && s.preprocessed.taken == |s.preprocessed.hist|
    ensures P.Reachable(c, t, P.Rules(true, true, bounded)) && CaughtUp(c, t)
    ensures t.renderers == s.renderers && t.rendering == s.rendering
  {
    var rules := P.Rules(true, true, bounded);
    hide P.Reachable, P.PreprocessResult, P.PageMats, P.Misuse;
    t := StepReaches(c, s, P.MainReceive, rules);
    t := StepReaches(c, t, P.MainCalibrate(true, true), rules);
    if c.blockSize > 0 {
      t := AllSpawned(c, t, rules);
      t := StepReaches(c, t, P.MainSend, rules);
      t := StepReaches(c, t, P.Consume, rules);
    }
  }

  lemma AllSpawned(c: P.Config, s: P.State, rules: P.Rules) returns (t: P.State)
    requires P.Reachable(c, s, rules) && s.main.Spawning? && s.main.k == 0 && AllAre(s, P.Unborn)
    ensures P.Reachable(c, t, rules) && t.main == P.Spawning(|s.workers|, s.main.out) && AllAre(t, P.Idle)
    ensures t == s.(main := t.main, workers := t.workers, threads := t.threads) && |t.workers| == |s.workers|
  {
    hide P.Reachable;
    t := s;
    while t.main.k < |s.workers|
      invariant P.Reachable(c, t, rules) && t == s.(main := t.main, workers := t.workers, threads := t.threads)
      invariant t.main.Spawning? && t.main.k <= |s.workers| == |t.workers| && t.main == P.Spawning(t.main.k, s.main.out)
      invariant forall i :: 0 <= i < |s.workers| ==> t.workers[i] == if i < t.main.k then P.Idle else P.Unborn
      decreases |s.workers| - t.main.k
    {
      t := StepReaches(c, t, P.MainSpawn, rules);
    }
  }

  /** The first worker preprocesses a set, and the consumer takes the result. */
  lemma NextSetServed(c: P.Config, s: P.State, bounded: bool) returns (t: P.State)
    requires P.Reachable(c, s, P.Rules(true, true, bounded)) && s.main.Returned? && AllAre(s, P.Idle)
    requires |s.workers| == c.parallelism > 0 && AllRendered(s)
    requires !s.rendered.closed && |s.rendered.hist| == s.rendered.taken + 1
    requires !s.preprocessed.closed && s.preprocessed.taken == |s.preprocessed.hist|
    ensures P.Reachable(c, t, P.Rules(true, true, bounded)) && CaughtUp(c, t)
    ensures t.renderers == s.renderers && t.rendering == s.rendering
  {
    var rules := P.Rules(true, true, bounded);
    hide P.Reachable, P.PreprocessResult, P.PageMats, P.ClosedBy, P.Misuse;
    t := StepReaches(c, s, P.Receive(0), rules);
    t := StepReaches(c, t, P.Work(0, true), rules);
    t := StepReaches(c, t, P.Send(0), rules);
    t := StepReaches(c, t, P.Consume, rules);
  }

  /** The renderer renders a block, and its result goes all the way. */
  lemma BlockServed(c: P.Config, s: P.State, r: nat, k: nat, bounded: bool) returns (t: P.State)
    requires P.Reachable(c, s, P.Rules(true, true, bounded)) && OnlyRenderer(c, s, r, k) && k < |c.docs[r]| && CaughtUp(c, s)
    ensures P.Reachable(c, t, P.Rules(true, true, bounded)) && OnlyRenderer(c, t, r, k + 1) && CaughtUp(c, t)
  {
    var rules := P.Rules(true, true, bounded);
    hide P.Reachable;
    assert s.main.Returned? ==> s.workers[0].Idle?;
    t := StepReaches(c, s, P.RSend(r, true), rules);
    if t.main.AwaitFirst? {
      t := FirstSetServed(c, t, bounded);
    } else if t.main.Returned? {
      t := NextSetServed(c, t, bounded);
    } else {
      t := StepReaches(c, t, P.MainDrain, rules);
    }
  }

  /** The first renderer comes to its end, with the others not started. So far the run
      keeps to both hypotheses. */
  lemma FirstRendererEnds(c: P.Config, bounded: bool) returns (t: P.State)
    requires ValidConfig(c) && |c.docs| >= 2
    ensures P.Reachable(c, t, P.Rules(true, true, bounded)) && OnlyRenderer(c, t, 0, |c.docs[0]|) && CaughtUp(c, t)
  {
    var rules := P.Rules(true, true, bounded);
    P.Stay(c, P.Init(c), rules);
    t := StepReaches(c, P.Init(c), P.RStart(0), rules);
    hide P.Reachable, P.Leads, P.Init, ValidConfig, CaughtUp;
    var k := 0;
    while k < |c.docs[0]|
      invariant 0 <= k <= |c.docs[0]|
      invariant P.Reachable(c, t, rules) && OnlyRenderer(c, t, 0, k) && CaughtUp(c, t)
    {
      t := BlockServed(c, t, 0, k, bounded);
      k := k + 1;
    }
  }

  /** Without the hypothesis on the renderers every document with two sub-documents,
      even if all its pages render, has a run without a fault so far in which the rendered
      channel is closed and the second renderer is about to send on it, or to close it
      again if it has no block. */
  lemma RendererOutlivesChannel(c: P.Config, bounded: bool) returns (t: P.State, step: P.Step)
    requires ValidConfig(c) && |c.docs| >= 2
    ensures P.Reachable(c, t, P.Rules(false, true, bounded)) && AllRendered(t) && t.faults == 0 && t.rendered.closed
    ensures step == if c.docs[1] != [] then P.RSend(1, true) else P.RClose(1)
    ensures P.Allowed(c, t, step, P.Rules(false, true, bounded)) && P.Apply(c, t, step).faults == 1
  {
    var rules := P.Rules(false, true, bounded);
    hide P.Reachable, Inv, ValidConfig;
    t := FirstRendererEnds(c, bounded);
    ReachableInv(c, t, P.Rules(true, true, bounded));
    NoFaultYet(c, t);
    P.RelaxedReach(c, t, P.Rules(true, true, bounded), rules);
    t := StepReaches(c, t, P.RLower(0), rules);
    t := StepReaches(c, t, P.RClose(0), rules);
    t := StepReaches(c, t, P.RStart(1), rules);
    if c.docs[1] != [] {
      step := P.RSend(1, true);
    } else {
      t := StepReaches(c, t, P.RLower(1), rules);
      step := P.RClose(1);
    }
  }

  lemma RendererFaults(c: P.Config, bounded: bool) returns (t: P.State)
    requires ValidConfig(c) && |c.docs| >= 2
    ensures P.Reachable(c, t, P.Rules(false, true, bounded)) && t.faults == 1
  {
    hide P.Reachable, P.Allowed, ValidConfig;
    var s, step := RendererOutlivesChannel(c, bounded);
    t := StepReaches(c, s, step, P.Rules(false, true, bounded));
  }

  /** The renderers are free of faults in every schedule if and only if there is one
      sub-document, whatever the capacities. */
  lemma RenderersSafeExactly(c: P.Config, bounded: bool)
    requires ValidConfig(c)
    ensures (forall s :: P.Reachable(c, s, P.Rules(false, true, bounded)) ==> s.faults == 0) <==> |c.docs| == 1
  {
    hide P.Reachable;
    if |c.docs| == 1 {
      forall s | P.Reachable(c, s, P.Rules(false, true, bounded))
        ensures s.faults == 0
      {
        ProtectedIsSafe(c, s, P.Rules(false, true, bounded));
      }
    } else {
      var s := RendererFaults(c, bounded);
    }
  }

  // ----- An output that is closed too early

  /** The output is closed although the first result was not sent yet. */
  predicate ClosedEarly(s: P.State) { s.preprocessed.closed && AboutToSend(s) }

  /** Without the hypothesis on the first result, a worker can close the output before
      it is sent: with unbounded channels for every document with a block, and with
      those of the source if the other results fit in the output. */
  lemma OutputClosesEarly(c: P.Config, bounded: bool) returns (t: P.State)
    requires ValidConfig(c) && c.blockSize > 0 && AllBlocks(c) != multiset{} && (bounded ==> !TooManyToClose(c))
    ensures P.Reachable(c, t, P.Rules(true, false, bounded)) && ClosedEarly(t) && t.faults == 0
  {
    hide ValidConfig, AllBlocks, P.Reachable, Inv, Settled;
    var s := WaitForFirstResult(c, bounded);
    SettledShape(c, s, bounded);
    WaitingIsOpen(c, s);
    NoFaultYet(c, s);
    var i :| 0 <= i < |s.workers| && s.workers[i].Closing?;
    P.RelaxedReach(c, s, P.Rules(true, true, bounded), P.Rules(true, false, bounded));
    t := StepReaches(c, s, P.Close(i), P.Rules(true, false, bounded));
  }

  lemma NoFaultYet(c: P.Config, s: P.State)
    requires Inv(c, s)
    ensures s.faults == 0
  {
    hide RenderInv, FlowInv, ThreadInv;
  }

  /** Then the first result is sent on the closed channel. */
  lemma FirstResultMissesChannel(c: P.Config, bounded: bool) returns (t: P.State)
    requires ValidConfig(c) && c.blockSize > 0 && AllBlocks(c) != multiset{} && (bounded ==> !TooManyToClose(c))
    ensures P.Reachable(c, t, P.Rules(true, false, bounded)) && t.main.Returned? && t.faults == 1
  {
    hide ValidConfig, AllBlocks, P.Reachable, TooManyToClose;
    t := OutputClosesEarly(c, bounded);
    t := StepReaches(c, t, P.MainSend, P.Rules(true, false, bounded));
  }

  /** With the channels of the source, sending the first result is free of faults in
      every schedule if and only if there are at least two more blocks than workers. */
  lemma FirstResultSafeExactly(c: P.Config)
    requires ValidConfig(c) && c.blockSize > 0 && AllBlocks(c) != multiset{}
    ensures (forall s :: P.Reachable(c, s, P.Rules(true, false, true)) ==> s.faults == 0) <==> |AllBlocks(c)| > c.parallelism + 1
  {
    hide ValidConfig, AllBlocks, P.Reachable;
    if TooManyToClose(c) {
      forall s | P.Reachable(c, s, P.Rules(true, false, true))
        ensures s.faults == 0
      {
        ProtectedIsSafe(c, s, P.Rules(true, false, true));
      }
    } else {
      var s := FirstResultMissesChannel(c, true);
    }
  }

  // ----- All schedules of the source

  /** Every schedule of the source is free of faults if and only if there is one
      sub-document and at least two more blocks than preprocessing workers. */
  lemma SafeExactly(c: P.Config)
    requires ValidConfig(c) && c.blockSize > 0 && AllBlocks(c) != multiset{}
    ensures (forall s :: P.Reachable(c, s, SOURCE) ==> s.faults == 0) <==> |c.docs| == 1 && |AllBlocks(c)| > c.parallelism + 1
  {
    assert c.docs != [];
    hide ValidConfig, AllBlocks, P.Reachable;
    if |c.docs| != 1 {
      var s := RendererFaults(c, true);
      P.RelaxedReach(c, s, P.Rules(false, true, true), SOURCE);
    } else if !TooManyToClose(c) {
      var s := FirstResultMissesChannel(c, true);
      P.RelaxedReach(c, s, P.Rules(true, false, true), SOURCE);
    } else {
      forall s | P.Reachable(c, s, SOURCE)
        ensures s.faults == 0
      {
        ProtectedIsSafe(c, s, SOURCE);
      }
    }
  }

  /** So no document is safe in every schedule: it can fault, or it can get stuck. */
  lemma NoDocumentIsSafe(c: P.Config) returns (s: P.State)
    requires ValidConfig(c) && c.blockSize > 0 && AllBlocks(c) != multiset{}
    ensures P.Reachable(c, s, SOURCE)
    ensures s.faults > 0 || (!Finished(s) && forall step :: !P.Allowed(c, s, step, SOURCE))
  {
    hide ValidConfig, AllBlocks, P.Reachable, P.Allowed, Finished, Clogged, Inv, Settled, Filled;
    if TooManyToClose(c) {
      s := FirstResultCanBlock(c);
      ReachableFilled(c, s, HYPOTHESES);
      forall step
        ensures !P.Allowed(c, s, step, SOURCE)
      {
        CloggedForGood(c, s, step);
      }
      P.RelaxedReach(c, s, HYPOTHESES, SOURCE);
    } else {
      s := FirstResultMissesChannel(c, true);
      P.RelaxedReach(c, s, P.Rules(true, false, true), SOURCE);
    }
  }

  // ----- Nothing to render

  /** Without any block there is no renderer, so nobody closes the rendered channel and
      `PreprocessStream` waits for a first set that never comes. */
  lemma EmptyDocumentBlocks(c: P.Config, step: P.Step)
    requires c.docs == []
    ensures !Finished(P.Init(c)) && !P.Enabled(c, P.Init(c), step)
  {
  }

  // ----- The smallest documents

  lemma BlocksOfOne(blocks: seq<nat>)
    ensures Total(DocBags([blocks])) == multiset(blocks)
  {
    var bags := DocBags([blocks]);
    assert bags[..0] == [] && bags[0] == multiset(blocks);
    assert Total(bags) == Total(bags[..0]) + bags[0];
  }

  /** One page and one worker: the output closes before the first result is sent. */
  lemma OnePage()
    ensures exists s: P.State :: P.Reachable(P.Config([[0]], 1, 1), s, SOURCE) && s.faults == 1 && s.main.Returned?
  {
    var c := P.Config([[0]], 1, 1);
    BlocksOfOne([0]);
    assert AllBlocks(c) == multiset{0};
    hide AllBlocks, P.Reachable;
    var s := FirstResultMissesChannel(c, true);
    P.RelaxedReach(c, s, P.Rules(true, false, true), SOURCE);
  }

  lemma TwoBlocksOnce(c: P.Config)
    requires c.docs == [[0], [1]] && c.parallelism > 0
    ensures ValidConfig(c)
  {
    var bags: seq<multiset<nat>> := DocBags(c.docs);
    assert bags == [multiset{0}, multiset{1}];
    assert bags[..1] == [multiset{0}];
    BlocksOfOne([0]);
    assert DocBags([[0]]) == [multiset{0}];
    assert Total(bags) == Total(bags[..1]) + bags[1];
  }

  /** Two pages in two sub-documents: the second renderer sends on the closed channel. */
  lemma TwoPages()
    ensures exists s: P.State :: P.Reachable(P.Config([[0], [1]], 1, 1), s, SOURCE) && s.faults == 1
  {
    var c := P.Config([[0], [1]], 1, 1);
    TwoBlocksOnce(c);
    hide P.Reachable, ValidConfig;
    var s := RendererFaults(c, true);
    P.RelaxedReach(c, s, P.Rules(false, true, true), SOURCE);
  }

  /** Three pages and one worker: the full output stops everybody. */
  lemma ThreePages()
    ensures exists s: P.State :: P.Reachable(P.Config([[0, 1, 2]], 1, 1), s, HYPOTHESES)
                                 && !s.preprocessed.closed && s.main.Spawning? && !CanMove(P.Config([[0, 1, 2]], 1, 1), s)
  {
    var c := P.Config([[0, 1, 2]], 1, 1);
    BlocksOfOne([0, 1, 2]);
    assert AllBlocks(c) == multiset{0, 1, 2};
    hide AllBlocks, P.Reachable, CanMove, Inv, Settled;
    var s := FirstResultCanBlock(c);
    WaitingIsOpen(c, s);
  }
}
