/** The pipeline over whole runs: no fault in any disciplined schedule, one result
    per block, every received matrix closed. */
module PipelineProofs {
  import opened Crew
  import opened PipelineCrews
  import opened PipelineFlow
  import P = Pipeline

  function Received(s: P.State): seq<P.PageSet>
    requires s.rendered.taken <= |s.rendered.hist|
  {
    s.rendered.hist[..s.rendered.taken]
  }

  ghost predicate Inv(c: P.Config, s: P.State) {
    && RenderInv(c, s.renderers, s.rendering, s.rendered)
    && ThreadInv(c, s.main, s.workers, s.threads, s.preprocessed.closed, s.rendered.Drained())
    && s.rendered.taken <= |s.rendered.hist|
    && s.preprocessed.taken <= |s.preprocessed.hist|
    && (s.main.AwaitFirst? ==> s.rendered.taken == 0)
    && (!s.main.Returned? ==> s.preprocessed.taken == 0)
    && FlowInv(c, s.main, s.workers, Received(s), s.preprocessed.hist, s.closed)
    && s.templateClosed == s.preprocessed.closed
    && s.faults == 0
  }

  lemma InvStart(c: P.Config)
    requires ValidConfig(c)
    ensures Inv(c, P.Init(c))
  {
    assert c.parallelism > 0;
    hide RenderInv, ThreadInv, FlowInv, ValidConfig;
    RenderStart(c);
    ThreadStart(c);
    FlowStart(c);
    assert Received(P.Init(c)) == [];
  }

  // ----- Every step keeps the invariant

  lemma SplitBag(xs: seq<P.PageSet>, n: nat)
    requires n <= |xs|
    ensures Bag(xs[..n]) + Bag(xs[n..]) == Bag(xs)
  {
    assert Ids(xs) == Ids(xs[..n]) + Ids(xs[n..]);
  }

  /** No block is received twice. */
  lemma ReceivedOnce(c: P.Config, ws: seq<P.RenderWorker>, counter: int, ch: P.Channel, n: nat)
    requires ValidConfig(c) && RenderInv(c, ws, counter, ch) && n <= |ch.hist|
    ensures Once(ch.hist[..n]) && AllGood(c, ch.hist[..n])
  {
    hide CrewInv, RLives, AllBlocks, Bag, RestBags, Total, GoodInput;
    SplitBag(ch.hist, n);
    forall id: nat
      ensures Bag(ch.hist[..n])[id] <= 1
    {
      assert (Bag(ch.hist[..n]) + Bag(ch.hist[n..]) + Total(RestBags(c.docs, ws)))[id] <= 1;
    }
  }

  /** Where a step leaves the invariant to be shown for the state after it. */
  lemma KeptByRender(c: P.Config, s: P.State, step: P.Step)
    requires Inv(c, s) && P.Enabled(c, s, step) && P.RenderersFirst(s, step) && IsRenderStep(step)
    ensures Inv(c, P.Apply(c, s, step))
  {
    hide RenderInv, FlowInv, CrewInv, WLives, Phase, P.RenderResult;
    RenderStep(c, s, step);
    var s' := P.Apply(c, s, step);
    RenderGrows(c, s, step);
    assert Received(s') == Received(s);
  }

  lemma RenderGrows(c: P.Config, s: P.State, step: P.Step)
    requires RenderInv(c, s.renderers, s.rendering, s.rendered) && P.Enabled(c, s, step) && IsRenderStep(step)
    requires s.rendered.taken <= |s.rendered.hist|
    ensures var s' := P.Apply(c, s, step);
            && s.rendered.hist <= s'.rendered.hist && s'.rendered.taken == s.rendered.taken
            && (s.rendered.Drained() ==> s'.rendered.Drained())
            && s' == s.(renderers := s'.renderers, rendering := s'.rendering, rendered := s'.rendered, faults := s'.faults)
  {
    hide AllGood, AllBlocks, Bag, RestBags, Total, P.RenderResult;
    if step.RSend? {
      assert !RLives(s.renderers)[step.i].Gone?;
      StillOpen(RLives(s.renderers), s.rendering, s.rendered.closed, step.i);
    }
  }

  lemma KeptByMainReceive(c: P.Config, s: P.State)
    requires Inv(c, s) && P.Enabled(c, s, P.MainReceive)
    ensures Inv(c, P.Apply(c, s, P.MainReceive))
  {
    hide RenderInv, FlowInv, ThreadInv;
    var s' := P.Apply(c, s, P.MainReceive);
    var x := s.rendered.hist[s.rendered.taken];
    ThreadMain(c, s.main, s'.main, s.workers, s.threads, s.preprocessed.closed, s.rendered.Drained());
    FlowMainReceive(c, s.workers, Received(s), x, s.preprocessed.hist, s.closed);
    assert Received(s') == Received(s) + [x];
    DrainedKept(c, s.main, s'.main, s, s'.rendered);
    RenderReceived(c, s.renderers, s.rendering, s.rendered);
  }

  lemma RenderReceived(c: P.Config, ws: seq<P.RenderWorker>, counter: int, ch: P.Channel)
    requires RenderInv(c, ws, counter, ch) && ch.Pending()
    ensures RenderInv(c, ws, counter, ch.(taken := ch.taken + 1)) && GoodInput(c, ch.hist[ch.taken])
  {
    hide CrewInv, RLives, AllBlocks, Bag, RestBags, Total, GoodInput;
  }

  /** Receiving changes nothing about whether the input is drained: it was pending. */
  lemma DrainedKept(c: P.Config, m: P.Main, m': P.Main, s: P.State, ch: P.Channel)
    requires ThreadInv(c, m', s.workers, s.threads, s.preprocessed.closed, s.rendered.Drained()) && s.rendered.Pending()
    ensures ThreadInv(c, m', s.workers, s.threads, s.preprocessed.closed, ch.Drained())
  {
    hide CrewInv, WLives, Phase;
  }

  lemma KeptByCalibrate(c: P.Config, s: P.State, scaled: bool, ok: bool)
    requires ValidConfig(c) && Inv(c, s) && P.Enabled(c, s, P.MainCalibrate(scaled, ok))
    ensures Inv(c, P.Apply(c, s, P.MainCalibrate(scaled, ok)))
  {
    hide RenderInv, FlowInv, ThreadInv, ValidConfig, AllGood, Once, P.PreprocessResult, P.PageMats;
    var s' := P.Apply(c, s, P.MainCalibrate(scaled, ok));
    ThreadMain(c, s.main, s'.main, s.workers, s.threads, s.preprocessed.closed, s.rendered.Drained());
    ReceivedOnce(c, s.renderers, s.rendering, s.rendered, s.rendered.taken);
    if s'.main.Failed? {
      FlowFail(c, s.main, s.workers, Received(s), s.preprocessed.hist, s.closed);
    } else {
      FlowCalibrate(c, s.main, s.workers, Received(s), ok, s.preprocessed.hist, s.closed);
    }
  }

  lemma KeptBySpawn(c: P.Config, s: P.State)
    requires Inv(c, s) && P.Enabled(c, s, P.MainSpawn)
    ensures Inv(c, P.Apply(c, s, P.MainSpawn))
  {
    hide RenderInv, FlowInv, ThreadInv;
    var s' := P.Apply(c, s, P.MainSpawn);
    ThreadSpawn(c, s.main, s.workers, s.threads, s.preprocessed.closed, s.rendered.Drained());
    FlowSpawned(c, s.main, s'.main, s.workers, Received(s), s.preprocessed.hist, s.closed);
    FlowQuiet(c, s'.main, s.workers, s.main.k, P.Idle, Received(s), s.preprocessed.hist, s.closed);
  }

  lemma KeptByMainSend(c: P.Config, s: P.State)
    requires Inv(c, s) && P.Enabled(c, s, P.MainSend)
    ensures Inv(c, P.Apply(c, s, P.MainSend))
  {
    hide RenderInv, FlowInv, ThreadInv;
    ThreadMain(c, s.main, P.Returned, s.workers, s.threads, s.preprocessed.closed, s.rendered.Drained());
    FlowMainSend(c, s.main, s.workers, Received(s), s.preprocessed.hist, s.closed);
  }

  lemma KeptByDrain(c: P.Config, s: P.State)
    requires Inv(c, s) && P.Enabled(c, s, P.MainDrain)
    ensures Inv(c, P.Apply(c, s, P.MainDrain))
  {
    hide RenderInv, FlowInv, ThreadInv, P.PageMats, GoodInput;
    var s' := P.Apply(c, s, P.MainDrain);
    var x := s.rendered.hist[s.rendered.taken];
    RenderReceived(c, s.renderers, s.rendering, s.rendered);
    ThreadMain(c, s.main, s'.main, s.workers, s.threads, s.preprocessed.closed, s.rendered.Drained());
    FlowDrain(c, s.workers, Received(s), x, s.preprocessed.hist, s.closed);
    assert Received(s') == Received(s) + [x];
    DrainedKept(c, s.main, s'.main, s, s'.rendered);
  }

  lemma KeptByReceive(c: P.Config, s: P.State, i: nat)
    requires Inv(c, s) && P.Enabled(c, s, P.Receive(i))
    ensures Inv(c, P.Apply(c, s, P.Receive(i)))
  {
    hide RenderInv, FlowInv, ThreadInv;
    var s' := P.Apply(c, s, P.Receive(i));
    var x := s.rendered.hist[s.rendered.taken];
    ThreadMove(c, s.main, s.workers, s.threads, s.preprocessed.closed, s.rendered.Drained(), i, P.Working(x));
    FlowReceive(c, s.main, s.workers, i, Received(s), x, s.preprocessed.hist, s.closed);
    assert Received(s') == Received(s) + [x];
    DrainedKept(c, s.main, s.main, s.(workers := s'.workers), s'.rendered);
    RenderReceived(c, s.renderers, s.rendering, s.rendered);
  }

  lemma KeptByWork(c: P.Config, s: P.State, i: nat, ok: bool)
    requires ValidConfig(c) && Inv(c, s) && P.Enabled(c, s, P.Work(i, ok))
    ensures Inv(c, P.Apply(c, s, P.Work(i, ok)))
  {
    hide RenderInv, FlowInv, ThreadInv, ValidConfig, AllGood, Once, P.PreprocessResult, P.ClosedBy;
    var y := P.PreprocessResult(c, s.workers[i].x, ok);
    ThreadMove(c, s.main, s.workers, s.threads, s.preprocessed.closed, s.rendered.Drained(), i, P.Sending(y));
    ReceivedOnce(c, s.renderers, s.rendering, s.rendered, s.rendered.taken);
    FlowWork(c, s.main, s.workers, i, Received(s), ok, s.preprocessed.hist, s.closed);
  }

  lemma KeptBySend(c: P.Config, s: P.State, i: nat)
    requires Inv(c, s) && P.Enabled(c, s, P.Send(i))
    ensures Inv(c, P.Apply(c, s, P.Send(i)))
  {
    hide RenderInv, FlowInv, ThreadInv;
    ThreadMove(c, s.main, s.workers, s.threads, s.preprocessed.closed, s.rendered.Drained(), i, P.Idle);
    FlowSend(c, s.main, s.workers, i, Received(s), s.preprocessed.hist, s.closed);
  }

  lemma KeptByLeaving(c: P.Config, s: P.State, step: P.Step)
    requires Inv(c, s) && P.Enabled(c, s, step) && P.Disciplined(s, step)
             && (step.SeeEnd? || step.Lower? || step.Close?)
    ensures Inv(c, P.Apply(c, s, step))
  {
    hide RenderInv, FlowInv, ThreadInv;
    var i, s' := step.i, P.Apply(c, s, step);
    FlowQuiet(c, s.main, s.workers, i, s'.workers[i], Received(s), s.preprocessed.hist, s.closed);
    match step {
      case SeeEnd(_) => ThreadMove(c, s.main, s.workers, s.threads, s.preprocessed.closed, s.rendered.Drained(), i, P.Leaving);
      case Lower(_) => ThreadLower(c, s.main, s.workers, s.threads, s.preprocessed.closed, s.rendered.Drained(), i);
      case Close(_) => ThreadClose(c, s.main, s.workers, s.threads, s.preprocessed.closed, s.rendered.Drained(), i);
      case _ =>
    }
  }

  /** Every disciplined step keeps the invariant. */
  lemma StepKeeps(c: P.Config, s: P.State, step: P.Step)
    requires ValidConfig(c) && Inv(c, s) && P.Enabled(c, s, step) && P.Disciplined(s, step)
    ensures Inv(c, P.Apply(c, s, step))
  {
    hide ValidConfig, Inv, P.Apply, P.RenderersFirst, P.WorkersFirst;
    match step {
      case MainReceive => KeptByMainReceive(c, s);
      case MainCalibrate(scaled, ok) => KeptByCalibrate(c, s, scaled, ok);
      case MainSpawn => KeptBySpawn(c, s);
      case MainSend => KeptByMainSend(c, s);
      case MainDrain => KeptByDrain(c, s);
      case Receive(i) => KeptByReceive(c, s, i);
      case Work(i, ok) => KeptByWork(c, s, i, ok);
      case Send(i) => KeptBySend(c, s, i);
      case Consume => KeptByConsume(c, s);
      case SeeEnd(_) => KeptByLeaving(c, s, step);
      case Lower(_) => KeptByLeaving(c, s, step);
      case Close(_) => KeptByLeaving(c, s, step);
      case _ => KeptByRender(c, s, step);
    }
  }

  lemma KeptByConsume(c: P.Config, s: P.State)
    requires Inv(c, s) && P.Enabled(c, s, P.Consume)
    ensures Inv(c, P.Apply(c, s, P.Consume))
  {
    hide RenderInv, FlowInv, ThreadInv;
  }

  /** The rules that contain the hypotheses on the schedule. */
  predicate Careful(rules: P.Rules) { rules.renderersFirst && rules.workersFirst }

  lemma {:induction false} InvOverRun(c: P.Config, s: P.State, steps: seq<P.Step>, t: P.State, rules: P.Rules)
    requires ValidConfig(c) && Inv(c, s) && Careful(rules) && P.Goes(c, s, steps, t, rules)
    ensures Inv(c, t)
    decreases |steps|
  {
    hide ValidConfig, Inv, P.Apply, P.RenderersFirst, P.WorkersFirst, P.HasRoom, P.Enabled;
    if steps != [] {
      StepKeeps(c, s, steps[0]);
      InvOverRun(c, P.Apply(c, s, steps[0]), steps[1..], t, rules);
    }
  }

  lemma ReachableInv(c: P.Config, s: P.State, rules: P.Rules)
    requires ValidConfig(c) && Careful(rules) && P.Reachable(c, s, rules)
    ensures Inv(c, s)
  {
    var steps :| P.Goes(c, P.Init(c), steps, s, rules);
    hide *;
    InvStart(c);
    InvOverRun(c, P.Init(c), steps, s, rules);
  }

  // ----- Safety

  /** In no disciplined schedule is anything sent on a closed channel, a channel
      closed twice, or a page or the template used after it was closed. */
  lemma NoFaults(c: P.Config, s: P.State, rules: P.Rules)
    requires ValidConfig(c) && Careful(rules) && P.Reachable(c, s, rules)
    ensures s.faults == 0
  {
    hide ValidConfig, P.Reachable, RenderInv, ThreadInv, FlowInv;
    ReachableInv(c, s, rules);
  }

  lemma BagSize(sets: seq<P.PageSet>)
    ensures |Bag(sets)| == |sets|
  {
  }

  lemma FlowBound(c: P.Config, m: P.Main, ws: seq<P.Worker>, received: seq<P.PageSet>, out: seq<P.PageSet>,
                  closed: set<P.Mat>)
    requires FlowInv(c, m, ws, received, out, closed) && !m.Failed?
    ensures |out| <= |received|
  {
    BagSize(out);
    BagSize(received);
    hide Total, Bag, WorkBags, SendBags, Resources, GoodResults, Held;
  }

  lemma RenderBound(c: P.Config, ws: seq<P.RenderWorker>, counter: int, ch: P.Channel)
    requires RenderInv(c, ws, counter, ch)
    ensures |ch.hist| <= |AllBlocks(c)|
  {
    hide CrewInv, RLives, AllBlocks, Bag, RestBags, Total, AllGood;
    BagSize(ch.hist);
  }

  /** The index the consumer takes for a result is below the number of blocks. */
  lemma IndexInRange(c: P.Config, s: P.State, rules: P.Rules)
    requires ValidConfig(c) && Careful(rules) && P.Reachable(c, s, rules) && P.Enabled(c, s, P.Consume)
    ensures s.preprocessed.taken < |AllBlocks(c)|
  {
    hide ValidConfig, P.Reachable, RenderInv, ThreadInv, FlowInv, AllBlocks;
    ReachableInv(c, s, rules);
    FlowBound(c, s.main, s.workers, Received(s), s.preprocessed.hist, s.closed);
    RenderBound(c, s.renderers, s.rendering, s.rendered);
  }

  // ----- What a finished run has done

  lemma RenderDone(c: P.Config, ws: seq<P.RenderWorker>, counter: int, ch: P.Channel)
    requires RenderInv(c, ws, counter, ch) && ch.closed
    ensures Bag(ch.hist) == AllBlocks(c)
  {
    forall i | 0 <= i < |ws|
      ensures RestBags(c.docs, ws)[i] == multiset{}
    {
      assert RLives(ws)[i].Gone?;
    }
    TotalEmpty(RestBags(c.docs, ws));
    hide AllBlocks, Bag, RestBags, Total, AllGood;
    assert Bag(ch.hist) + multiset{} == Bag(ch.hist);
  }

  lemma ThreadDone(c: P.Config, m: P.Main, ws: seq<P.Worker>, threads: int, closed: bool, drained: bool)
    requires ThreadInv(c, m, ws, threads, closed, drained) && closed
    ensures drained && m.Returned? && forall i :: 0 <= i < |ws| ==> ws[i].Gone?
  {
    forall i | 0 <= i < |ws|
      ensures ws[i].Gone?
    {
      assert WLives(ws)[i].Gone?;
    }
    assert WLives(ws) != [];
    assert Ended(ws[0]);
  }

  lemma FlowDone(c: P.Config, m: P.Main, ws: seq<P.Worker>, received: seq<P.PageSet>, out: seq<P.PageSet>,
                 closed: set<P.Mat>)
    requires FlowInv(c, m, ws, received, out, closed) && (m.Returned? || m.Failed?)
    requires forall i :: 0 <= i < |ws| ==> Quiet(ws[i])
    ensures m.Returned? ==> Bag(out) == Bag(received)
    ensures forall i :: 0 <= i < |received| ==> PagesClosed(received[i], closed)
    ensures forall i :: 0 <= i < |out| ==> GoodResult(c, out[i])
    ensures forall m :: m in closed ==> m.Rendered?
  {
    OnAllQuiet(ws);
    assert InWork(m, ws) == multiset{};
    assert Processed(m, ws, out) == Bag(out);
    hide Total, Bag, WorkBags, SendBags, InWork, Processed, GoodResult, PagesClosed;
  }

  /** When the output is closed, every block has exactly one result, which is either
      an error without pages or all its pages, still open; and every rendered matrix
      is closed. */
  lemma OneResultPerBlock(c: P.Config, s: P.State, rules: P.Rules)
    requires ValidConfig(c) && Careful(rules) && P.Reachable(c, s, rules) && s.preprocessed.closed
    ensures Bag(s.preprocessed.hist) == AllBlocks(c)
    ensures forall y :: y in s.preprocessed.hist ==> GoodResult(c, y) && forall m :: m in y.pages ==> m !in s.closed
    ensures forall x :: x in s.rendered.hist ==> PagesClosed(x, s.closed)
    ensures s.templateClosed
  {
    hide ValidConfig, P.Reachable, RenderInv, ThreadInv, FlowInv, AllBlocks, PagesClosed, Bag;
    ReachableInv(c, s, rules);
    ThreadDone(c, s.main, s.workers, s.threads, s.preprocessed.closed, s.rendered.Drained());
    RenderDone(c, s.renderers, s.rendering, s.rendered);
    FlowDone(c, s.main, s.workers, Received(s), s.preprocessed.hist, s.closed);
    assert Received(s) == s.rendered.hist;
  }

  /** After a failed calibration, once the input is drained every rendered matrix is
      closed, and every block was rendered. */
  lemma FailureClosesAll(c: P.Config, s: P.State, rules: P.Rules)
    requires ValidConfig(c) && Careful(rules) && P.Reachable(c, s, rules) && s.main.Failed? && s.rendered.Drained()
    ensures Bag(s.rendered.hist) == AllBlocks(c)
    ensures forall x :: x in s.rendered.hist ==> PagesClosed(x, s.closed)
  {
    hide ValidConfig, P.Reachable, RenderInv, CrewInv, FlowInv, AllBlocks, PagesClosed, Bag;
    ReachableInv(c, s, rules);
    RenderDone(c, s.renderers, s.rendering, s.rendered);
    FlowDone(c, s.main, s.workers, Received(s), s.preprocessed.hist, s.closed);
    assert Received(s) == s.rendered.hist;
  }
}
