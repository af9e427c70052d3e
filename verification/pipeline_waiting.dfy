/** Progress of the pipeline with the channels of the source: the rendered channel is
    unbuffered, and the output holds as many results as there are workers. The caller
    receives the output only when `PreprocessStream` returns, after it sent the first
    result; so with more blocks than workers the output can fill up before that. */
module PipelineWaiting {
  import opened Crew
  import opened PipelineCrews
  import opened PipelineFlow
  import opened PipelineProofs
  import opened PipelineProgress
  import P = Pipeline

  /** All hypotheses on the schedule, and bounded channels. */
  const HYPOTHESES := P.Rules(true, true, true)

  /** Bounded channels alone: every schedule of the source. */
  const SOURCE := P.Rules(false, false, true)

  ghost predicate CanMove(c: P.Config, s: P.State) {
    exists step: P.Step :: P.Allowed(c, s, step, HYPOTHESES)
  }

  /** The first result is to be sent, and the output is full. */
  predicate Clogged(c: P.Config, s: P.State) { AboutToSend(s) && !P.OutputHasRoom(c, s) }

  // ----- How much can be under way before the first result is sent

  /** The output never holds more than its capacity. */
  predicate Filled(c: P.Config, s: P.State) {
    |s.preprocessed.hist| - s.preprocessed.taken <= c.parallelism
  }

  lemma {:induction false} FilledOverRun(c: P.Config, s: P.State, steps: seq<P.Step>, t: P.State, rules: P.Rules)
    requires ValidConfig(c) && Inv(c, s) && Filled(c, s) && Careful(rules) && rules.bounded && P.Goes(c, s, steps, t, rules)
    ensures Filled(c, t)
    decreases |steps|
  {
    hide ValidConfig, Inv, P.RenderersFirst, P.WorkersFirst;
    if steps != [] {
      FilledStep(c, s, steps[0]);
      StepKeeps(c, s, steps[0]);
      hide P.Apply, P.Enabled, P.HasRoom, Filled;
      FilledOverRun(c, P.Apply(c, s, steps[0]), steps[1..], t, rules);
    }
  }

  lemma FilledStep(c: P.Config, s: P.State, step: P.Step)
    requires Inv(c, s) && Filled(c, s) && P.Enabled(c, s, step) && P.HasRoom(c, s, step)
    ensures Filled(c, P.Apply(c, s, step))
  {
    hide RenderInv, FlowInv, P.RenderResult, P.PreprocessResult, P.PageMats, P.ClosedBy, P.Misuse, P.SendFault, P.ReceiverWaits;
    if step.Send? {
      WorkerFindsOpen(c, s.main, s.workers, s.threads, s.preprocessed.closed, s.rendered.Drained(), step.i);
    }
    hide ThreadInv;
  }

  lemma WorkerFindsOpen(c: P.Config, m: P.Main, ws: seq<P.Worker>, threads: int, closed: bool, drained: bool, i: nat)
    requires ThreadInv(c, m, ws, threads, closed, drained) && i < |ws| && ws[i].Sending?
    ensures !closed
  {
    assert !WLives(ws)[i].Gone?;
    StillOpen(WLives(ws), threads, closed, i);
  }

  lemma ReachableFilled(c: P.Config, s: P.State, rules: P.Rules)
    requires ValidConfig(c) && Careful(rules) && rules.bounded && P.Reachable(c, s, rules)
    ensures Filled(c, s)
  {
    var steps :| P.Goes(c, P.Init(c), steps, s, rules);
    assert Filled(c, P.Init(c));
    hide *;
    InvStart(c);
    FilledOverRun(c, P.Init(c), steps, s, rules);
  }

  /** The rendered channel is unbuffered: at most one set is between its sender and a
      receiver, and then a receiver waits for it. */
  predicate HandedOver(s: P.State) {
    && s.rendered.taken <= |s.rendered.hist| <= s.rendered.taken + 1
    && (|s.rendered.hist| == s.rendered.taken + 1 ==>
          s.main.AwaitFirst? || s.main.Failed? || exists i :: 0 <= i < |s.workers| && s.workers[i].Idle?)
  }

  lemma HandedOverStep(c: P.Config, s: P.State, step: P.Step)
    requires s.faults == 0 ==> HandedOver(s)
    requires P.Enabled(c, s, step) && P.HasRoom(c, s, step)
    ensures P.Apply(c, s, step).faults == 0 ==> HandedOver(P.Apply(c, s, step))
  {
    hide P.RenderResult, P.PreprocessResult, P.PageMats, P.ClosedBy, P.Misuse, P.OutputHasRoom;
    var t := P.Apply(c, s, step);
    if t.faults == 0 && !step.Receive? && |t.rendered.hist| == t.rendered.taken + 1 {
      if i :| 0 <= i < |s.workers| && s.workers[i].Idle? {
        assert t.workers[i].Idle?;
      }
    }
  }

  lemma {:induction false} HandedOverRun(c: P.Config, s: P.State, steps: seq<P.Step>, t: P.State, rules: P.Rules)
    requires s.faults == 0 ==> HandedOver(s)
    requires rules.bounded && P.Goes(c, s, steps, t, rules)
    ensures t.faults == 0 ==> HandedOver(t)
    decreases |steps|
  {
    hide P.RenderersFirst, P.WorkersFirst;
    if steps != [] {
      HandedOverStep(c, s, steps[0]);
      hide P.Apply, P.Enabled, P.HasRoom, HandedOver;
      HandedOverRun(c, P.Apply(c, s, steps[0]), steps[1..], t, rules);
    }
  }

  /** In every schedule of the source, as long as there is no fault. */
  lemma RenderedIsUnbuffered(c: P.Config, s: P.State, rules: P.Rules)
    requires rules.bounded && P.Reachable(c, s, rules) && s.faults == 0
    ensures HandedOver(s)
  {
    var steps :| P.Goes(c, P.Init(c), steps, s, rules);
    HandedOverRun(c, P.Init(c), steps, s, rules);
  }

  /** Sets received before the first result is sent: that one, those sent, those held. */
  lemma ReceivedAtLeast(c: P.Config, m: P.Main, ws: seq<P.Worker>, received: seq<P.PageSet>, out: seq<P.PageSet>,
                        closed: set<P.Mat>)
    requires FlowInv(c, m, ws, received, out, closed) && m.Spawning?
    ensures |received| >= 1 + |out|
    ensures forall i :: 0 <= i < |ws| && ws[i].Sending? ==> |received| >= 2 + |out|
    ensures (forall i :: 0 <= i < |ws| ==> Quiet(ws[i])) ==> |received| == 1 + |out|
  {
    BagSize(out);
    BagSize(received);
    assert |MainSend(m)| == 1;
    forall i | 0 <= i < |ws| && ws[i].Sending?
      ensures |Total(SendBags(ws))| >= 1
    {
      TotalContains(SendBags(ws), i);
      assert ws[i].x.id in SendBags(ws)[i];
      assert ws[i].x.id in Total(SendBags(ws));
    }
    if forall i :: 0 <= i < |ws| ==> Quiet(ws[i]) { OnAllQuiet(ws); }
    hide Total, Bag, WorkBags, SendBags, MainSend, Resources, GoodResults, Held;
  }

  lemma BlocksUnderWay(c: P.Config, s: P.State)
    requires Inv(c, s) && s.main.Spawning?
    ensures |AllBlocks(c)| >= 1 + |s.preprocessed.hist|
    ensures forall i :: 0 <= i < |s.workers| && s.workers[i].Sending? ==> |AllBlocks(c)| >= 2 + |s.preprocessed.hist|
    ensures (forall i :: 0 <= i < |s.workers| ==> Quiet(s.workers[i])) && s.rendered.Drained()
            ==> |AllBlocks(c)| == 1 + |s.preprocessed.hist|
  {
    hide RenderInv, ThreadInv, FlowInv, AllBlocks;
    ReceivedAtLeast(c, s.main, s.workers, Received(s), s.preprocessed.hist, s.closed);
    RenderBound(c, s.renderers, s.rendering, s.rendered);
    if s.rendered.Drained() {
      RenderDone(c, s.renderers, s.rendering, s.rendered);
      BagSize(s.rendered.hist);
    }
  }

  /** A clogged state takes more blocks than there are workers. */
  lemma CloggedNeedsBlocks(c: P.Config, s: P.State)
    requires Inv(c, s) && Clogged(c, s)
    ensures |AllBlocks(c)| > c.parallelism
  {
    hide RenderInv, ThreadInv, FlowInv, AllBlocks;
    BlocksUnderWay(c, s);
  }

  // ----- When nothing favoured is left

  /** The workers are done, but for those that wait for room in the output. */
  lemma WorkersWait(c: P.Config, s: P.State, bounded: bool)
    requires ValidConfig(c) && Inv(c, s) && AboutToSend(s) && Settled(c, s, bounded)
    ensures forall i :: 0 <= i < |s.workers| ==>
              s.workers[i].Closing? || s.workers[i].Gone? || (s.workers[i].Sending? && bounded && !P.OutputHasRoom(c, s))
  {
    hide RenderInv, FlowInv, CrewInv, Settled, P.OutputHasRoom;
    forall i | 0 <= i < |s.workers|
      ensures s.workers[i].Closing? || s.workers[i].Gone? || (s.workers[i].Sending? && bounded && !P.OutputHasRoom(c, s))
    {
      if !s.workers[i].Closing? && !s.workers[i].Gone? && (s.workers[i].Sending? && bounded ==> P.OutputHasRoom(c, s)) {
        WorkerMoves(c, s, i, bounded);
      }
    }
  }

  /** Either a worker waits for room, or all blocks but the first have their result in
      the output and the last worker is about to close it. */
  lemma SettledShape(c: P.Config, s: P.State, bounded: bool)
    requires ValidConfig(c) && Inv(c, s) && AboutToSend(s) && Settled(c, s, bounded)
    ensures (bounded && !P.OutputHasRoom(c, s) && |AllBlocks(c)| >= 2 + |s.preprocessed.hist|)
            || (|AllBlocks(c)| == 1 + |s.preprocessed.hist| && exists i :: 0 <= i < |s.workers| && s.workers[i].Closing?)
  {
    assert c.parallelism > 0;
    hide Settled, Inv, P.OutputHasRoom, AllBlocks, ValidConfig;
    WorkersWait(c, s, bounded);
    BlocksUnderWay(c, s);
    if forall i :: 0 <= i < |s.workers| ==> s.workers[i].Closing? || s.workers[i].Gone? {
      LastWorkerCloses(c, s);
    }
  }

  /** If all workers are done before the first result is sent, the input is drained and
      the output is still to be closed. */
  lemma LastWorkerCloses(c: P.Config, s: P.State)
    requires c.parallelism > 0 && Inv(c, s) && AboutToSend(s)
    requires forall i :: 0 <= i < |s.workers| ==> s.workers[i].Closing? || s.workers[i].Gone?
    ensures s.rendered.Drained() && exists i :: 0 <= i < |s.workers| && s.workers[i].Closing?
  {
    hide RenderInv, FlowInv, CrewInv, WLives, Phase;
    assert Ended(s.workers[0]);
    LifeAt(s.workers, 0);
    var i := SomeoneLeft(WLives(s.workers), s.threads, s.preprocessed.closed);
    LifeAt(s.workers, i);
  }

  lemma LifeAt(ws: seq<P.Worker>, i: nat)
    requires i < |ws|
    ensures WLives(ws)[i] == WLife(ws[i])
  {
  }

  // ----- Runs in which everything succeeds and the first result waits

  /** Nothing has failed, and `PreprocessStream` has not returned. */
  predicate Hopeful(s: P.State) {
    && !s.main.Failed? && !s.main.Returned?
    && forall k :: 0 <= k < |s.rendered.hist| ==> !s.rendered.hist[k].failed
  }

  lemma FirstSetHasPages(c: P.Config, s: P.State)
    requires Inv(c, s) && Hopeful(s) && s.main.GotFirst? && c.blockSize > 0
    ensures s.main.x.pages != []
  {
    hide CrewInv, RLives, Resources, GoodResults, ThreadInv, Bag;
    assert s.main.x in Received(s);
    var k :| 0 <= k < |Received(s)| && Received(s)[k] == s.main.x;
    assert GoodInput(c, s.rendered.hist[k]);
  }

  lemma HopefulStep(c: P.Config, s: P.State, step: P.Step, bounded: bool)
    requires Inv(c, s) && Hopeful(s) && c.blockSize > 0 && Favoured(c, s, step, bounded)
    ensures Hopeful(P.Apply(c, s, step))
  {
    hide Inv, P.PreprocessResult, P.PageMats, P.ClosedBy, P.Misuse, P.SendFault, P.HasRoom, P.RenderersFirst, P.WorkersFirst,
         P.RenderedPages;
    if step.MainCalibrate? { FirstSetHasPages(c, s); }
  }

  lemma InvSized(c: P.Config, s: P.State)
    requires Inv(c, s)
    ensures Sized(c, s)
  {
    hide CrewInv, FlowInv, Phase;
  }

  /** Every such run goes on to a state where nothing favoured is left. */
  lemma {:induction false} RunUntilSettled(c: P.Config, s: P.State, bounded: bool) returns (t: P.State)
    requires ValidConfig(c) && c.blockSize > 0 && Inv(c, s) && Hopeful(s)
    requires P.Reachable(c, s, P.Rules(true, true, bounded))
    ensures Inv(c, t) && Hopeful(t) && Settled(c, t, bounded) && P.Reachable(c, t, P.Rules(true, true, bounded))
    decreases Budget(c, s)
  {
    hide ValidConfig, Inv, Hopeful, P.Reachable, Cost, P.Apply, P.RenderersFirst, P.WorkersFirst, P.HasRoom, P.Enabled;
    if Settled(c, s, bounded) {
      t := s;
    } else {
      var step :| Favoured(c, s, step, bounded);
      InvSized(c, s);
      StepUsesBudget(c, s, step);
      StepKeeps(c, s, step);
      HopefulStep(c, s, step, bounded);
      ReachNext(c, s, step, P.Rules(true, true, bounded));
      t := RunUntilSettled(c, P.Apply(c, s, step), bounded);
    }
  }

  lemma ReachNext(c: P.Config, s: P.State, step: P.Step, rules: P.Rules)
    requires P.Reachable(c, s, rules) && P.Allowed(c, s, step, rules)
    ensures P.Reachable(c, P.Apply(c, s, step), rules)
  {
    hide P.Leads, P.Allowed, P.Apply, P.Init;
    P.Next(c, P.Init(c), s, step, rules);
  }

  ghost function Budget(c: P.Config, s: P.State): nat { if Sized(c, s) then Cost(c, s) else 0 }

  /** Every configuration with a block has a run to a state where only the first result
      waits to be sent. */
  lemma WaitForFirstResult(c: P.Config, bounded: bool) returns (s: P.State)
    requires ValidConfig(c) && c.blockSize > 0 && AllBlocks(c) != multiset{}
    ensures P.Reachable(c, s, P.Rules(true, true, bounded)) && Inv(c, s) && AboutToSend(s) && Settled(c, s, bounded)
  {
    var start := P.Init(c);
    assert Hopeful(start) && !start.preprocessed.closed;
    hide ValidConfig, Inv, AllBlocks, Settled, P.Init, P.Leads;
    InvStart(c);
    P.Stay(c, start, P.Rules(true, true, bounded));
    s := RunUntilSettled(c, start, bounded);
    OnlyFirstResultWaits(c, s, bounded);
    HopefulIsOpen(c, s);
  }

  lemma HopefulIsOpen(c: P.Config, s: P.State)
    requires Inv(c, s) && Hopeful(s)
    ensures !s.preprocessed.closed && !Finished(s)
  {
    hide CrewInv, RenderInv, FlowInv, Phase;
  }
}
