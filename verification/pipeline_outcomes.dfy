/** Which results of the pipeline are errors: exactly those of blocks that could not be
    rendered or preprocessed, over every disciplined run. */
module PipelineOutcomes {
  import opened Crew
  import opened PipelineCrews
  import opened PipelineFlow
  import opened PipelineProofs
  import P = Pipeline

  // ----- What a run was told

  /** The block whose rendering fails in this step, if any. */
  function RenderFails(c: P.Config, s: P.State, step: P.Step): set<nat>
    requires P.Enabled(c, s, step)
  {
    match step
    case RSend(i, ok) => if ok then {} else {c.docs[i][s.renderers[i].k]}
    case _ => {}
  }

  /** The block whose preprocessing fails in this step, if any. */
  function WorkFails(c: P.Config, s: P.State, step: P.Step): set<nat>
    requires P.Enabled(c, s, step)
  {
    match step
    case MainCalibrate(_, ok) => if ok then {} else {s.main.x.id}
    case Work(i, ok) => if ok then {} else {s.workers[i].x.id}
    case _ => {}
  }

  ghost function Unrendered(c: P.Config, s: P.State, steps: seq<P.Step>): set<nat>
    decreases |steps|
  {
    if steps == [] || !P.Enabled(c, s, steps[0]) then {}
    else RenderFails(c, s, steps[0]) + Unrendered(c, P.Apply(c, s, steps[0]), steps[1..])
  }

  ghost function Unprocessed(c: P.Config, s: P.State, steps: seq<P.Step>): set<nat>
    decreases |steps|
  {
    if steps == [] || !P.Enabled(c, s, steps[0]) then {}
    else WorkFails(c, s, steps[0]) + Unprocessed(c, P.Apply(c, s, steps[0]), steps[1..])
  }

  // ----- What the results say

  /** The sets that failed to render are those of `bad`. */
  ghost predicate InputsMatch(sets: seq<P.PageSet>, bad: set<nat>) {
    && (forall k :: 0 <= k < |sets| ==> (sets[k].failed <==> sets[k].id in bad))
    && (forall id :: id in bad ==> id in Bag(sets))
  }

  /** The results with an error, sent or not, are those of `bad`. */
  ghost predicate ResultsMatch(m: P.Main, ws: seq<P.Worker>, out: seq<P.PageSet>, bad: set<nat>) {
    && (m.Spawning? ==> (m.out.failed <==> m.out.id in bad))
    && (forall i :: 0 <= i < |ws| && ws[i].Sending? ==> (ws[i].x.failed <==> ws[i].x.id in bad))
    && (forall i :: 0 <= i < |out| ==> (out[i].failed <==> out[i].id in bad))
  }

  ghost predicate AllProcessed(ids: set<nat>, m: P.Main, ws: seq<P.Worker>, out: seq<P.PageSet>) {
    forall id :: id in ids ==> id in Processed(m, ws, out)
  }

  ghost predicate Outcomes(c: P.Config, s: P.State, unrendered: set<nat>, unprocessed: set<nat>) {
    && InputsMatch(s.rendered.hist, unrendered)
    && (!s.main.Failed? ==>
          && ResultsMatch(s.main, s.workers, s.preprocessed.hist, unrendered + unprocessed)
          && AllProcessed(unprocessed, s.main, s.workers, s.preprocessed.hist))
    && (s.main.AwaitFirst? || s.main.GotFirst? || s.main.Failed? ==> s.preprocessed.hist == [])
  }

  lemma OutcomesStart(c: P.Config)
    ensures Outcomes(c, P.Init(c), {}, {})
  {
  }

  // ----- Where a block is

  lemma InBag(sets: seq<P.PageSet>, k: nat)
    requires k < |sets|
    ensures sets[k].id in Bag(sets)
  {
    assert Ids(sets)[k] == sets[k].id;
  }

  lemma ResultsAreProcessed(m: P.Main, ws: seq<P.Worker>, out: seq<P.PageSet>)
    ensures m.Spawning? ==> m.out.id in Processed(m, ws, out)
    ensures forall i :: 0 <= i < |ws| && ws[i].Sending? ==> ws[i].x.id in Processed(m, ws, out)
    ensures forall i :: 0 <= i < |out| ==> out[i].id in Processed(m, ws, out)
  {
    hide Total, Bag, WorkBags;
    forall i | 0 <= i < |ws| && ws[i].Sending?
      ensures ws[i].x.id in Processed(m, ws, out)
    {
      TotalContains(SendBags(ws), i);
      assert ws[i].x.id in SendBags(ws)[i];
    }
    forall i | 0 <= i < |out|
      ensures out[i].id in Processed(m, ws, out)
    {
      InBag(out, i);
    }
  }

  /** A block that has no result yet may join `bad`. */
  lemma ResultsWiden(m: P.Main, ws: seq<P.Worker>, out: seq<P.PageSet>, bad: set<nat>, id: nat)
    requires ResultsMatch(m, ws, out, bad) && id !in Processed(m, ws, out)
    ensures ResultsMatch(m, ws, out, bad + {id})
  {
    ResultsAreProcessed(m, ws, out);
    hide Processed;
  }

  /** What was processed was received. */
  lemma ProcessedIsReceived(m: P.Main, ws: seq<P.Worker>, received: seq<P.PageSet>, out: seq<P.PageSet>, id: nat)
    requires Bag(received) == InWork(m, ws) + Processed(m, ws, out) && id !in Bag(received)
    ensures id !in Processed(m, ws, out)
  {
    hide Bag, InWork, Processed;
    assert Bag(received)[id] == 0;
  }

  lemma WorkIsUnprocessed(m: P.Main, ws: seq<P.Worker>, received: seq<P.PageSet>, out: seq<P.PageSet>, id: nat)
    requires Bag(received) == InWork(m, ws) + Processed(m, ws, out) && Once(received) && id in InWork(m, ws)
    ensures id !in Processed(m, ws, out)
  {
    hide Bag, InWork, Processed;
    assert Bag(received)[id] <= 1;
  }

  // ----- Rendering

  /** A block that is still to be rendered was not sent. */
  lemma NotSentYet(c: P.Config, ws: seq<P.RenderWorker>, counter: int, ch: P.Channel, i: nat)
    requires ValidConfig(c) && RenderInv(c, ws, counter, ch)
    requires i < |ws| && ws[i].At? && ws[i].k < |c.docs[i]|
    ensures c.docs[i][ws[i].k] !in Bag(ch.hist)
  {
    var id := c.docs[i][ws[i].k];
    assert c.docs[i][ws[i].k..][0] == id;
    assert id in RestBags(c.docs, ws)[i];
    TotalContains(RestBags(c.docs, ws), i);
    hide CrewInv, Bag, AllBlocks, AllGood, Total, RestBags, RestBag;
    assert (Bag(ch.hist) + Total(RestBags(c.docs, ws)))[id] <= 1;
  }

  lemma InputsGrow(sets: seq<P.PageSet>, bad: set<nat>, x: P.PageSet)
    requires InputsMatch(sets, bad) && x.id !in Bag(sets)
    ensures InputsMatch(sets + [x], bad + if x.failed then {x.id} else {})
  {
    BagPush(sets, x);
    forall k | 0 <= k < |sets|
      ensures sets[k].id != x.id
    {
      InBag(sets, k);
    }
    hide Bag;
  }

  lemma NotReceivedYet(sets: seq<P.PageSet>, n: nat, id: nat)
    requires n <= |sets| && id !in Bag(sets)
    ensures id !in Bag(sets[..n])
  {
    SplitBag(sets, n);
    hide Bag;
    assert (Bag(sets[..n]) + Bag(sets[n..]))[id] == 0;
  }

  lemma RenderOutcome(c: P.Config, s: P.State, step: P.Step, rr: set<nat>, pr: set<nat>)
    requires ValidConfig(c) && Inv(c, s) && Outcomes(c, s, rr, pr) && P.Enabled(c, s, step) && IsRenderStep(step)
    ensures Outcomes(c, P.Apply(c, s, step), rr + RenderFails(c, s, step), pr)
  {
    hide ValidConfig, RenderInv, ThreadInv, FlowInv, InputsMatch, ResultsMatch, AllProcessed;
    if step.RSend? {
      SentOutcome(c, s, step.i, step.ok, rr, pr);
    } else {
      assert rr + {} == rr;
    }
  }

  lemma SentOutcome(c: P.Config, s: P.State, i: nat, ok: bool, rr: set<nat>, pr: set<nat>)
    requires ValidConfig(c) && Inv(c, s) && Outcomes(c, s, rr, pr) && P.Enabled(c, s, P.RSend(i, ok))
    ensures Outcomes(c, P.Apply(c, s, P.RSend(i, ok)), rr + RenderFails(c, s, P.RSend(i, ok)), pr)
  {
    hide ValidConfig, RenderInv, ThreadInv, InputsMatch, ResultsMatch, AllProcessed, Bag, InWork, Processed, Held, GoodResults,
         Resources;
    var id := c.docs[i][s.renderers[i].k];
    NotSentYet(c, s.renderers, s.rendering, s.rendered, i);
    InputsGrow(s.rendered.hist, rr, P.RenderResult(c, id, ok));
    if !s.main.Failed? {
      NotReceivedYet(s.rendered.hist, s.rendered.taken, id);
      ProcessedIsReceived(s.main, s.workers, Received(s), s.preprocessed.hist, id);
      ResultsWiden(s.main, s.workers, s.preprocessed.hist, rr + pr, id);
      assert rr + {id} + pr == rr + pr + {id} && rr + {} == rr;
    }
  }

  // ----- Preprocessing

  /** One more result, of a block that had none. */
  lemma MoreProcessed(ids: set<nat>, m: P.Main, ws: seq<P.Worker>, out: seq<P.PageSet>, m': P.Main, ws': seq<P.Worker>, id: nat)
    requires AllProcessed(ids, m, ws, out) && Processed(m', ws', out) == Processed(m, ws, out) + multiset{id}
    ensures AllProcessed(ids, m', ws', out) && AllProcessed(ids + {id}, m', ws', out)
  {
    hide Processed;
  }

  /** A set that is taken is an error exactly if it was not rendered, and its result if it
      was not rendered or not preprocessed. */
  lemma ResultOf(c: P.Config, sets: seq<P.PageSet>, n: nat, x: P.PageSet, ok: bool, rr: set<nat>, pr: set<nat>)
    requires InputsMatch(sets, rr) && n <= |sets| && x in sets[..n] && x.id !in pr
    ensures var y := P.PreprocessResult(c, x, ok);
            y.id == x.id && (y.failed <==> x.id in rr + (pr + if ok then {} else {x.id}))
  {
    var k :| 0 <= k < n && sets[..n][k] == x;
    assert sets[k] == x;
    hide Bag;
  }

  lemma CalibrateOutcome(c: P.Config, s: P.State, scaled: bool, ok: bool, rr: set<nat>, pr: set<nat>)
    requires ValidConfig(c) && Inv(c, s) && Outcomes(c, s, rr, pr) && P.Enabled(c, s, P.MainCalibrate(scaled, ok))
    ensures Outcomes(c, P.Apply(c, s, P.MainCalibrate(scaled, ok)), rr, pr + WorkFails(c, s, P.MainCalibrate(scaled, ok)))
  {
    hide ValidConfig, RenderInv, ThreadInv, InputsMatch, AllProcessed, Bag, InWork, Processed, GoodResults, Resources, AllGood,
         P.PreprocessResult, P.PageMats, P.Misuse;
    var s', x := P.Apply(c, s, P.MainCalibrate(scaled, ok)), s.main.x;
    if s'.main.Spawning? {
      ReceivedOnce(c, s.renderers, s.rendering, s.rendered, s.rendered.taken);
      MainHolds(s.main, s.workers);
      WorkIsUnprocessed(s.main, s.workers, Received(s), s.preprocessed.hist, x.id);
      NotAmong(pr, s.main, s.workers, s.preprocessed.hist, x.id);
      ResultOf(c, s.rendered.hist, s.rendered.taken, x, ok, rr, pr);
      OnCalibrate(s.main, s'.main, s.workers, s.preprocessed.hist);
      MoreProcessed(pr, s.main, s.workers, s.preprocessed.hist, s'.main, s.workers, x.id);
      ResultsWiden(s.main, s.workers, s.preprocessed.hist, rr + pr, x.id);
      assert rr + (pr + {x.id}) == rr + pr + {x.id} && pr + {} == pr;
    }
  }

  lemma NotAmong(ids: set<nat>, m: P.Main, ws: seq<P.Worker>, out: seq<P.PageSet>, id: nat)
    requires AllProcessed(ids, m, ws, out) && id !in Processed(m, ws, out)
    ensures id !in ids
  {
    hide Processed;
  }

  lemma MainHolds(m: P.Main, ws: seq<P.Worker>)
    requires m.GotFirst?
    ensures m.x.id in InWork(m, ws)
  {
    hide Total, WorkBags;
  }

  lemma WorkerHolds(m: P.Main, ws: seq<P.Worker>, i: nat)
    requires i < |ws| && ws[i].Working?
    ensures ws[i].x.id in InWork(m, ws)
  {
    TotalContains(WorkBags(ws), i);
    assert ws[i].x.id in WorkBags(ws)[i];
    hide Total, WorkBags;
  }

  lemma WorkOutcome(c: P.Config, s: P.State, i: nat, ok: bool, rr: set<nat>, pr: set<nat>)
    requires ValidConfig(c) && Inv(c, s) && Outcomes(c, s, rr, pr) && P.Enabled(c, s, P.Work(i, ok))
    ensures Outcomes(c, P.Apply(c, s, P.Work(i, ok)), rr, pr + WorkFails(c, s, P.Work(i, ok)))
  {
    hide ValidConfig, RenderInv, CrewInv, WLives, InputsMatch, ResultsMatch, AllProcessed, Bag, InWork, Processed, GoodResults,
         Resources, AllGood, P.PreprocessResult, P.ClosedBy, P.Misuse;
    var s', x, y := P.Apply(c, s, P.Work(i, ok)), s.workers[i].x, P.PreprocessResult(c, s.workers[i].x, ok);
    var bad := if ok then {} else {x.id};
    ReceivedOnce(c, s.renderers, s.rendering, s.rendered, s.rendered.taken);
    WorkerHolds(s.main, s.workers, i);
    WorkIsUnprocessed(s.main, s.workers, Received(s), s.preprocessed.hist, x.id);
    NotAmong(pr, s.main, s.workers, s.preprocessed.hist, x.id);
    ResultOf(c, s.rendered.hist, s.rendered.taken, x, ok, rr, pr);
    OnWork(s.main, s.workers, i, y, s.preprocessed.hist);
    MoreProcessed(pr, s.main, s.workers, s.preprocessed.hist, s.main, s'.workers, x.id);
    ResultsWiden(s.main, s.workers, s.preprocessed.hist, rr + pr, x.id);
    assert rr + (pr + {x.id}) == rr + pr + {x.id} && pr + {} == pr;
    ResultAdded(s.main, s.workers, i, y, s.preprocessed.hist, rr + (pr + bad));
  }

  lemma ResultAdded(m: P.Main, ws: seq<P.Worker>, i: nat, y: P.PageSet, out: seq<P.PageSet>, bad: set<nat>)
    requires ResultsMatch(m, ws, out, bad) && i < |ws| && (y.failed <==> y.id in bad)
    ensures ResultsMatch(m, ws[i := P.Sending(y)], out, bad)
  {
  }

  // ----- Steps that take no decision

  /** The same results, one of them perhaps sent now. */
  ghost predicate Moved(m: P.Main, ws: seq<P.Worker>, out: seq<P.PageSet>, m': P.Main, ws': seq<P.Worker>, out': seq<P.PageSet>)
  {
    && Processed(m', ws', out') == Processed(m, ws, out)
    && (m'.Spawning? ==> m.Spawning? && m'.out == m.out)
    && |ws'| == |ws| && (forall i :: 0 <= i < |ws| && ws'[i].Sending? ==> ws'[i] == ws[i])
    && (|| out' == out
        || (m.Spawning? && out' == out + [m.out])
        || exists i :: 0 <= i < |ws| && ws[i].Sending? && out' == out + [ws[i].x])
  }

  lemma MovedOutcome(m: P.Main, ws: seq<P.Worker>, out: seq<P.PageSet>, m': P.Main, ws': seq<P.Worker>, out': seq<P.PageSet>,
                     bad: set<nat>, done: set<nat>)
    requires Moved(m, ws, out, m', ws', out') && ResultsMatch(m, ws, out, bad) && AllProcessed(done, m, ws, out)
    ensures ResultsMatch(m', ws', out', bad) && AllProcessed(done, m', ws', out')
  {
    hide Processed;
  }

  lemma ReceiveMoves(m: P.Main, ws: seq<P.Worker>, i: nat, x: P.PageSet, out: seq<P.PageSet>)
    requires i < |ws| && ws[i].Idle?
    ensures Moved(m, ws, out, m, ws[i := P.Working(x)], out)
  {
    hide Processed, InWork;
    OnReceive(m, ws, i, x, out);
  }

  lemma SendMoves(m: P.Main, ws: seq<P.Worker>, i: nat, out: seq<P.PageSet>)
    requires i < |ws| && ws[i].Sending?
    ensures Moved(m, ws, out, m, ws[i := P.Idle], out + [ws[i].x])
  {
    hide Processed, InWork;
    OnSend(m, ws, i, out);
  }

  lemma QuietMoves(m: P.Main, ws: seq<P.Worker>, i: nat, w: P.Worker, out: seq<P.PageSet>)
    requires i < |ws| && Quiet(ws[i]) && Quiet(w)
    ensures Moved(m, ws, out, m, ws[i := w], out)
  {
    hide Processed, InWork;
    OnQuiet(m, ws, i, w, out);
  }

  lemma WorkersMove(c: P.Config, s: P.State, step: P.Step)
    requires P.Enabled(c, s, step) && (step.Receive? || step.Send? || step.SeeEnd? || step.Lower? || step.Close?)
    ensures var s' := P.Apply(c, s, step);
            Moved(s.main, s.workers, s.preprocessed.hist, s'.main, s'.workers, s'.preprocessed.hist)
  {
    hide Moved;
    if step.Receive? {
      ReceiveMoves(s.main, s.workers, step.i, s.rendered.hist[s.rendered.taken], s.preprocessed.hist);
    } else if step.Send? {
      SendMoves(s.main, s.workers, step.i, s.preprocessed.hist);
    } else {
      QuietMoves(s.main, s.workers, step.i, P.Apply(c, s, step).workers[step.i], s.preprocessed.hist);
    }
  }

  lemma MainMovesOn(c: P.Config, s: P.State, step: P.Step)
    requires P.Enabled(c, s, step) && (step.MainReceive? || step.MainSpawn? || step.MainSend?)
    ensures var s' := P.Apply(c, s, step);
            Moved(s.main, s.workers, s.preprocessed.hist, s'.main, s'.workers, s'.preprocessed.hist)
  {
    hide Processed;
    var s', out := P.Apply(c, s, step), s.preprocessed.hist;
    match step {
      case MainReceive => OnMainReceive(s'.main.x, s.workers, out);
      case MainSpawn =>
        OnSpawned(s.main, s'.main, s.workers, out);
        OnQuiet(s'.main, s.workers, s.main.k, P.Idle, out);
      case _ => OnMainSend(s.main, s.workers, out);
    }
  }

  /** A worker that holds a result was spawned. */
  lemma SendsLater(c: P.Config, m: P.Main, ws: seq<P.Worker>, threads: int, closed: bool, drained: bool, i: nat)
    requires ThreadInv(c, m, ws, threads, closed, drained) && i < |ws| && !ws[i].Unborn?
    ensures m.Spawning? || m.Returned?
  {
  }

  lemma OtherOutcome(c: P.Config, s: P.State, step: P.Step, rr: set<nat>, pr: set<nat>)
    requires Inv(c, s) && Outcomes(c, s, rr, pr) && P.Enabled(c, s, step)
    requires !IsRenderStep(step) && !step.MainCalibrate? && !step.Work?
    ensures Outcomes(c, P.Apply(c, s, step), rr, pr)
  {
    hide RenderInv, ThreadInv, FlowInv, InputsMatch, ResultsMatch, AllProcessed, Moved, P.PageMats;
    var s' := P.Apply(c, s, step);
    if step.MainReceive? || step.MainSpawn? || step.MainSend? {
      MainMovesOn(c, s, step);
      MovedOutcome(s.main, s.workers, s.preprocessed.hist, s'.main, s'.workers, s'.preprocessed.hist, rr + pr, pr);
    } else if !step.MainDrain? && !step.Consume? {
      SendsLater(c, s.main, s.workers, s.threads, s.preprocessed.closed, s.rendered.Drained(), step.i);
      WorkersMove(c, s, step);
      MovedOutcome(s.main, s.workers, s.preprocessed.hist, s'.main, s'.workers, s'.preprocessed.hist, rr + pr, pr);
    }
  }

  lemma OnMainSend(m: P.Main, ws: seq<P.Worker>, out: seq<P.PageSet>)
    requires m.Spawning?
    ensures Processed(P.Returned, ws, out + [m.out]) == Processed(m, ws, out)
  {
    BagPush(out, m.out);
    hide Total, Bag, SendBags;
  }

  lemma OutcomeStep(c: P.Config, s: P.State, step: P.Step, rr: set<nat>, pr: set<nat>)
    requires ValidConfig(c) && Inv(c, s) && Outcomes(c, s, rr, pr) && P.Enabled(c, s, step)
    ensures Outcomes(c, P.Apply(c, s, step), rr + RenderFails(c, s, step), pr + WorkFails(c, s, step))
  {
    hide ValidConfig, Inv, Outcomes, P.Apply;
    assert rr + {} == rr && pr + {} == pr;
    match step {
      case MainCalibrate(scaled, ok) => CalibrateOutcome(c, s, scaled, ok, rr, pr);
      case Work(i, ok) => WorkOutcome(c, s, i, ok, rr, pr);
      case RStart(_) => RenderOutcome(c, s, step, rr, pr);
      case RSend(_, _) => RenderOutcome(c, s, step, rr, pr);
      case RLower(_) => RenderOutcome(c, s, step, rr, pr);
      case RClose(_) => RenderOutcome(c, s, step, rr, pr);
      case _ => OtherOutcome(c, s, step, rr, pr);
    }
  }

  // ----- Whole runs

  lemma {:induction false} OutcomesOverRun(c: P.Config, s: P.State, steps: seq<P.Step>, t: P.State, rules: P.Rules,
                                           rr: set<nat>, pr: set<nat>)
    requires ValidConfig(c) && Inv(c, s) && Outcomes(c, s, rr, pr) && Careful(rules) && P.Goes(c, s, steps, t, rules)
    ensures Outcomes(c, t, rr + Unrendered(c, s, steps), pr + Unprocessed(c, s, steps))
    decreases |steps|
  {
    hide ValidConfig, Inv, Outcomes, P.Apply, P.RenderersFirst, P.WorkersFirst, P.HasRoom, P.Enabled, RenderFails, WorkFails;
    if steps == [] {
      assert rr + {} == rr && pr + {} == pr;
    } else {
      StepKeeps(c, s, steps[0]);
      OutcomeStep(c, s, steps[0], rr, pr);
      var rest, rr1, pr1 := P.Apply(c, s, steps[0]), RenderFails(c, s, steps[0]), WorkFails(c, s, steps[0]);
      OutcomesOverRun(c, rest, steps[1..], t, rules, rr + rr1, pr + pr1);
      Regroup(rr, rr1, Unrendered(c, rest, steps[1..]));
      Regroup(pr, pr1, Unprocessed(c, rest, steps[1..]));
    }
  }

  lemma Regroup(a: set<nat>, b: set<nat>, c: set<nat>)
    ensures a + b + c == a + (b + c)
  {
  }

  /** All pages of a block, in order. */
  predicate HoldsPages(c: P.Config, y: P.PageSet) {
    |y.pages| == c.blockSize && forall k :: 0 <= k < c.blockSize ==> y.pages[k] == P.Preprocessed(y.id, k)
  }

  predicate IsRendered(c: P.Config, x: P.PageSet) {
    |x.pages| == c.blockSize && forall k :: 0 <= k < c.blockSize ==> x.pages[k] == P.Rendered(x.id, k)
  }

  lemma InputPages(c: P.Config, sets: seq<P.PageSet>)
    requires AllGood(c, sets)
    ensures forall k :: 0 <= k < |sets| ==> if sets[k].failed then sets[k].pages == [] else IsRendered(c, sets[k])
  {
    forall k | 0 <= k < |sets|
      ensures if sets[k].failed then sets[k].pages == [] else IsRendered(c, sets[k])
    {
      assert GoodInput(c, sets[k]);
    }
  }

  /** A set was not rendered if and only if its renderer was told so. A result is an error
      if and only if its block was not rendered or not preprocessed; otherwise it holds
      the preprocessed pages of its block, in order. */
  lemma OutcomesExactly(c: P.Config, steps: seq<P.Step>, s: P.State, rules: P.Rules)
    requires ValidConfig(c) && Careful(rules) && P.Goes(c, P.Init(c), steps, s, rules)
    ensures forall k :: 0 <= k < |s.rendered.hist| ==>
              var x := s.rendered.hist[k];
              && (x.failed <==> x.id in Unrendered(c, P.Init(c), steps))
              && if x.failed then x.pages == [] else IsRendered(c, x)
    ensures forall k :: 0 <= k < |s.preprocessed.hist| ==>
              var y := s.preprocessed.hist[k];
              && (y.failed <==> y.id in Unrendered(c, P.Init(c), steps) || y.id in Unprocessed(c, P.Init(c), steps))
              && if y.failed then y.pages == [] else HoldsPages(c, y)
  {
    var rr, pr := Unrendered(c, P.Init(c), steps), Unprocessed(c, P.Init(c), steps);
    hide ValidConfig, RenderInv, ThreadInv, Resources, Bag, InWork, Processed, P.Goes, P.Init, Unrendered, Unprocessed,
         AllProcessed, AllGood, IsRendered;
    InvStart(c);
    OutcomesStart(c);
    OutcomesOverRun(c, P.Init(c), steps, s, rules, {}, {});
    assert {} + rr == rr && {} + pr == pr;
    InvOverRun(c, P.Init(c), steps, s, rules);
    AllInputsGood(c, s);
    InputPages(c, s.rendered.hist);
  }

  lemma AllInputsGood(c: P.Config, s: P.State)
    requires Inv(c, s)
    ensures AllGood(c, s.rendered.hist)
  {
    hide CrewInv, Bag, Total, RestBags, ThreadInv, FlowInv, GoodInput;
  }

  /** Every step of the run says that its rendering or preprocessing succeeds. */
  predicate NothingFails(steps: seq<P.Step>) {
    forall k :: 0 <= k < |steps| ==>
      match steps[k]
      case RSend(_, ok) => ok
      case MainCalibrate(scaled, ok) => scaled && ok
      case Work(_, ok) => ok
      case _ => true
  }

  lemma {:induction false} NothingBad(c: P.Config, s: P.State, steps: seq<P.Step>)
    requires NothingFails(steps)
    ensures Unrendered(c, s, steps) == {} && Unprocessed(c, s, steps) == {}
    decreases |steps|
  {
    hide P.Enabled, P.Apply;
    if steps != [] && P.Enabled(c, s, steps[0]) {
      assert forall k :: 0 <= k < |steps[1..]| ==> steps[1..][k] == steps[k + 1];
      NothingBad(c, P.Apply(c, s, steps[0]), steps[1..]);
    }
  }

  /** If everything succeeds, no result is an error; when the output is closed, every block
      has one result, which holds all its pages. */
  lemma EverythingDelivered(c: P.Config, steps: seq<P.Step>, s: P.State, rules: P.Rules)
    requires ValidConfig(c) && Careful(rules) && P.Goes(c, P.Init(c), steps, s, rules) && NothingFails(steps)
    ensures forall k :: 0 <= k < |s.preprocessed.hist| ==>
              !s.preprocessed.hist[k].failed && HoldsPages(c, s.preprocessed.hist[k])
    ensures s.preprocessed.closed ==> Bag(s.preprocessed.hist) == AllBlocks(c)
  {
    hide ValidConfig, Bag, AllBlocks, P.Goes, P.Init, NothingFails, Unrendered, Unprocessed, HoldsPages;
    OutcomesExactly(c, steps, s, rules);
    NothingBad(c, P.Init(c), steps);
    if s.preprocessed.closed {
      assert P.Leads(c, P.Init(c), s, rules);
      OneResultPerBlock(c, s, rules);
    }
  }

  // ----- What counts as a fault

  /** A step counts a fault if and only if it sends on or closes a channel that is
      closed, or preprocesses a set that was rendered when the template or a page of the
      set is closed. */
  lemma FaultsExactly(c: P.Config, s: P.State, step: P.Step)
    requires P.Enabled(c, s, step)
    ensures P.Apply(c, s, step).faults == s.faults + if Faulty(s, step) then 1 else 0
  {
  }

  predicate Faulty(s: P.State, step: P.Step) {
    match step
    case RSend(_, _) => s.rendered.closed
    case RClose(_) => s.rendered.closed
    case MainSend => s.preprocessed.closed
    case Send(_) => s.preprocessed.closed
    case Close(_) => s.preprocessed.closed
    case Work(i, _) =>
      i < |s.workers| && s.workers[i].Working? && !s.workers[i].x.failed
      && (s.templateClosed || exists m :: m in s.workers[i].x.pages && m in s.closed)
    case MainCalibrate(scaled, _) =>
      scaled && s.main.GotFirst? && s.main.x.pages != [] && !s.main.x.failed
      && (s.templateClosed || exists m :: m in s.main.x.pages && m in s.closed)
    case _ => false
  }
}
