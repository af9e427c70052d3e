/** Every schedule of the pipeline, disciplined or not, is finite: each step uses up
    part of a budget that is fixed by the number of blocks, documents and workers. */
module PipelineProgress {
  import opened Crew
  import opened PipelineCrews
  import opened PipelineFlow
  import opened PipelineProofs
  import opened Arithmetic
  import P = Pipeline

  /** Five steps for each block: rendered, received, preprocessed, sent, consumed. */
  function RenderCost(doc: seq<nat>, w: P.RenderWorker): nat {
    match w
    case NotStarted => 5 * |doc| + 3
    case At(k) => if k <= |doc| then 5 * (|doc| - k) + 2 else 2
    case RClosing => 1
    case Finished => 0
  }

  function WorkerCost(w: P.Worker): nat {
    match w
    case Unborn => 3
    case Idle => 3
    case Working(_) => 6
    case Sending(_) => 5
    case Leaving => 2
    case Closing => 1
    case Gone => 0
  }

  function MainCost(parallelism: nat, m: P.Main): nat {
    match m
    case AwaitFirst => parallelism
    case GotFirst(_) => parallelism + 3
    case Spawning(k, _) => if k <= parallelism then parallelism - k + 2 else 2
    case _ => 0
  }

  function RenderCosts(docs: seq<seq<nat>>, ws: seq<P.RenderWorker>): (r: seq<nat>)
    requires |ws| == |docs|
    ensures |r| == |ws| && forall i :: 0 <= i < |ws| ==> r[i] == RenderCost(docs[i], ws[i])
  {
    seq(|ws|, i requires 0 <= i < |ws| => RenderCost(docs[i], ws[i]))
  }

  function WorkerCosts(ws: seq<P.Worker>): (r: seq<nat>)
    ensures |r| == |ws| && forall i :: 0 <= i < |ws| ==> r[i] == WorkerCost(ws[i])
  {
    seq(|ws|, i requires 0 <= i < |ws| => WorkerCost(ws[i]))
  }

  predicate Sized(c: P.Config, s: P.State) {
    && |s.renderers| == |c.docs| && |s.workers| == c.parallelism
    && s.rendered.taken <= |s.rendered.hist| && s.preprocessed.taken <= |s.preprocessed.hist|
  }

  function Cost(c: P.Config, s: P.State): nat
    requires Sized(c, s)
  {
    Sum(RenderCosts(c.docs, s.renderers)) + 4 * (|s.rendered.hist| - s.rendered.taken)
    + MainCost(c.parallelism, s.main) + Sum(WorkerCosts(s.workers))
    + (|s.preprocessed.hist| - s.preprocessed.taken)
  }

  lemma RenderCostUpdate(docs: seq<seq<nat>>, ws: seq<P.RenderWorker>, i: nat, w: P.RenderWorker)
    requires |ws| == |docs| && i < |ws|
    ensures Sum(RenderCosts(docs, ws[i := w])) + RenderCost(docs[i], ws[i])
            == Sum(RenderCosts(docs, ws)) + RenderCost(docs[i], w)
  {
    SumUpdate(RenderCosts(docs, ws), i, RenderCost(docs[i], w));
    assert RenderCosts(docs, ws[i := w]) == RenderCosts(docs, ws)[i := RenderCost(docs[i], w)];
  }

  lemma WorkerCostUpdate(ws: seq<P.Worker>, i: nat, w: P.Worker)
    requires i < |ws|
    ensures Sum(WorkerCosts(ws[i := w])) + WorkerCost(ws[i]) == Sum(WorkerCosts(ws)) + WorkerCost(w)
  {
    SumUpdate(WorkerCosts(ws), i, WorkerCost(w));
    assert WorkerCosts(ws[i := w]) == WorkerCosts(ws)[i := WorkerCost(w)];
  }

  lemma RenderStepCosts(c: P.Config, s: P.State, step: P.Step)
    requires Sized(c, s) && P.Enabled(c, s, step) && IsRenderStep(step)
    ensures var s' := P.Apply(c, s, step); Sized(c, s') && Cost(c, s') < Cost(c, s)
  {
    hide Sum, RenderCosts, WorkerCosts, MainCost, P.RenderResult, P.SendFault;
    RenderCostUpdate(c.docs, s.renderers, step.i, P.Apply(c, s, step).renderers[step.i]);
  }

  predicate IsWorkerStep(step: P.Step) {
    step.Receive? || step.Work? || step.Send? || step.SeeEnd? || step.Lower? || step.Close?
  }

  lemma WorkerStepCosts(c: P.Config, s: P.State, step: P.Step)
    requires Sized(c, s) && P.Enabled(c, s, step) && IsWorkerStep(step)
    ensures var s' := P.Apply(c, s, step); Sized(c, s') && Cost(c, s') < Cost(c, s)
  {
    hide Sum, RenderCosts, WorkerCosts, MainCost, P.PreprocessResult, P.PageMats, P.ClosedBy, P.Misuse, P.SendFault;
    WorkerCostUpdate(s.workers, step.i, P.Apply(c, s, step).workers[step.i]);
  }

  lemma StepUsesBudget(c: P.Config, s: P.State, step: P.Step)
    requires Sized(c, s) && P.Enabled(c, s, step)
    ensures var s' := P.Apply(c, s, step); Sized(c, s') && Cost(c, s') < Cost(c, s)
  {
    if IsRenderStep(step) {
      RenderStepCosts(c, s, step);
    } else if IsWorkerStep(step) {
      WorkerStepCosts(c, s, step);
    } else {
      hide Sum, RenderCosts, WorkerCosts, P.PreprocessResult, P.PageMats, P.ClosedBy, P.Misuse, P.SendFault;
      if step.MainSpawn? {
        WorkerCostUpdate(s.workers, s.main.k, P.Idle);
      }
    }
  }

  lemma {:induction false} RunWithinBudget(c: P.Config, s: P.State, steps: seq<P.Step>, t: P.State, rules: P.Rules)
    requires Sized(c, s) && P.Goes(c, s, steps, t, rules)
    ensures Sized(c, t) && |steps| + Cost(c, t) <= Cost(c, s)
    decreases |steps|
  {
    hide P.Apply, P.Enabled, P.RenderersFirst, P.WorkersFirst, P.HasRoom, Sized, Cost;
    if steps != [] {
      StepUsesBudget(c, s, steps[0]);
      RunWithinBudget(c, P.Apply(c, s, steps[0]), steps[1..], t, rules);
    }
  }

  function StartCosts(docs: seq<seq<nat>>): (r: seq<nat>)
    ensures |r| == |docs| && forall i :: 0 <= i < |docs| ==> r[i] == 5 * |docs[i]| + 3
  {
    seq(|docs|, i requires 0 <= i < |docs| => 5 * |docs[i]| + 3)
  }

  lemma {:induction false} StartBudget(docs: seq<seq<nat>>)
    ensures Sum(StartCosts(docs)) == 5 * |Total(DocBags(docs))| + 3 * |docs|
  {
    if docs != [] {
      hide Sum, StartCosts, Total, DocBags;
      var n := |docs| - 1;
      StartBudget(docs[..n]);
      CostsOfLast(docs);
      BlocksOfLast(docs);
    } else {
      assert Total(DocBags(docs)) == multiset{};
    }
  }

  lemma CostsOfLast(docs: seq<seq<nat>>)
    requires docs != []
    ensures var n := |docs| - 1;
            Sum(StartCosts(docs)) == Sum(StartCosts(docs[..n])) + 5 * |docs[n]| + 3
  {
    assert StartCosts(docs)[..|docs| - 1] == StartCosts(docs[..|docs| - 1]);
  }

  lemma BlocksOfLast(docs: seq<seq<nat>>)
    requires docs != []
    ensures var n := |docs| - 1;
            |Total(DocBags(docs))| == |Total(DocBags(docs[..n]))| + |docs[n]|
  {
    assert DocBags(docs)[..|docs| - 1] == DocBags(docs[..|docs| - 1]);
  }

  /** No schedule is longer than this, whatever its rules. */
  lemma EveryScheduleEnds(c: P.Config, steps: seq<P.Step>, t: P.State, rules: P.Rules)
    requires P.Goes(c, P.Init(c), steps, t, rules)
    ensures |steps| <= 5 * |AllBlocks(c)| + 3 * |c.docs| + 4 * c.parallelism
  {
    var s := P.Init(c);
    RunWithinBudget(c, s, steps, t, rules);
    StartBudget(c.docs);
    assert RenderCosts(c.docs, s.renderers) == StartCosts(c.docs);
    SumConstant(WorkerCosts(s.workers), 3);
    hide P.Goes, Sum, Total;
  }

  // ----- Who waits for whom

  /** The request is over: all results consumed, or the input drained after a failure. */
  predicate Finished(s: P.State) {
    || (s.preprocessed.closed && !s.preprocessed.Pending())
    || (s.main.Failed? && s.rendered.Drained())
  }

  /** `PreprocessStream` is about to send the first result. */
  predicate AboutToSend(s: P.State) { s.main.Spawning? && s.main.k >= |s.workers| }

  /** A step that follows all rules, succeeds, and does not send the first result. */
  predicate Favoured(c: P.Config, s: P.State, step: P.Step, bounded: bool) {
    && P.Allowed(c, s, step, P.Rules(true, true, bounded))
    && !step.MainSend? && (step.RSend? ==> step.ok) && (step.MainCalibrate? ==> step.scaled && step.ok)
  }

  ghost predicate Settled(c: P.Config, s: P.State, bounded: bool) {
    forall step :: !Favoured(c, s, step, bounded)
  }

  /** While the rendered channel is open and somebody waits for a set, a renderer moves. */
  lemma RendererMoves(c: P.Config, s: P.State, bounded: bool)
    requires ValidConfig(c) && RenderInv(c, s.renderers, s.rendering, s.rendered)
    requires !s.rendered.closed && !s.rendered.Pending() && P.ReceiverWaits(s)
    ensures !Settled(c, s, bounded)
  {
    hide RestBags, Total, Bag, AllGood, AllBlocks, P.ReceiverWaits;
    var ws := s.renderers;
    var i := SomeoneLeft(RLives(ws), s.rendering, s.rendered.closed);
    if late :| 0 <= late < |ws| && ws[late].NotStarted? {
      assert Favoured(c, s, P.RStart(late), bounded);
    } else {
      var step := if ws[i].RClosing? then P.RClose(i) else if ws[i].k < |c.docs[i]| then P.RSend(i, true) else P.RLower(i);
      assert Favoured(c, s, step, bounded);
    }
  }

  /** A worker that is not done moves, unless it waits for room in the output. */
  lemma WorkerMoves(c: P.Config, s: P.State, i: nat, bounded: bool)
    requires ValidConfig(c) && RenderInv(c, s.renderers, s.rendering, s.rendered)
    requires i < |s.workers| && (forall j :: 0 <= j < |s.workers| ==> !s.workers[j].Unborn?)
    requires !s.workers[i].Closing? && !s.workers[i].Gone?
    requires s.workers[i].Sending? && bounded ==> P.OutputHasRoom(c, s)
    ensures !Settled(c, s, bounded)
  {
    hide RenderInv, ValidConfig, P.OutputHasRoom;
    var w := s.workers[i];
    if w.Idle? && !s.rendered.Pending() && !s.rendered.closed {
      RendererMoves(c, s, bounded);
    } else {
      var step :=
        if w.Idle? then (if s.rendered.Pending() then P.Receive(i) else P.SeeEnd(i))
        else if w.Working? then P.Work(i, true)
        else if w.Sending? then P.Send(i)
        else P.Lower(i);
      assert Favoured(c, s, step, bounded);
    }
  }

  lemma FirstSetIsThere(c: P.Config, ws: seq<P.RenderWorker>, counter: int, ch: P.Channel)
    requires AllBlocks(c) != multiset{} && RenderInv(c, ws, counter, ch) && ch.closed
    ensures ch.hist != []
  {
    RenderDone(c, ws, counter, ch);
    hide AllBlocks, RenderInv;
    assert Bag([]) == multiset{};
  }

  /** Before it returns, `PreprocessStream` moves or a renderer does, until it is about
      to send the first result. */
  lemma MainMoves(c: P.Config, s: P.State, bounded: bool)
    requires ValidConfig(c) && AllBlocks(c) != multiset{} && Inv(c, s)
    requires !s.main.Returned? && !AboutToSend(s) && !Finished(s)
    ensures !Settled(c, s, bounded)
  {
    hide RenderInv, FlowInv, CrewInv, WLives, ValidConfig, AllBlocks;
    if s.rendered.closed { FirstSetIsThere(c, s.renderers, s.rendering, s.rendered); }
    if (s.main.AwaitFirst? || s.main.Failed?) && !s.rendered.Pending() {
      RendererMoves(c, s, bounded);
    } else {
      var step := match s.main
        case AwaitFirst => P.MainReceive
        case GotFirst(_) => P.MainCalibrate(true, true)
        case Spawning(_, _) => P.MainSpawn
        case _ => P.MainDrain;
      assert Favoured(c, s, step, bounded);
    }
  }

  /** After it returned, a worker, a renderer or the consumer moves. */
  lemma ReturnedMoves(c: P.Config, s: P.State, bounded: bool)
    requires ValidConfig(c) && Inv(c, s) && s.main.Returned? && !Finished(s)
    ensures !Settled(c, s, bounded)
  {
    hide RenderInv, FlowInv, CrewInv;
    if s.preprocessed.Pending() {
      assert Favoured(c, s, P.Consume, bounded);
    } else {
      var i := SomeoneLeft(WLives(s.workers), s.threads, s.preprocessed.closed);
      if s.workers[i].Closing? {
        assert Favoured(c, s, P.Close(i), bounded);
      } else {
        WorkerMoves(c, s, i, bounded);
      }
    }
  }

  /** When nothing favoured is left, the request is over or only the first result is
      still to be sent. */
  lemma OnlyFirstResultWaits(c: P.Config, s: P.State, bounded: bool)
    requires ValidConfig(c) && AllBlocks(c) != multiset{} && Inv(c, s) && Settled(c, s, bounded)
    ensures Finished(s) || AboutToSend(s)
  {
    hide Inv, Settled, ValidConfig, AllBlocks;
    if !Finished(s) && !AboutToSend(s) {
      if s.main.Returned? { ReturnedMoves(c, s, bounded); } else { MainMoves(c, s, bounded); }
    }
  }
}
