/** The goroutine crews of the pipeline: what renderers and workers keep. */
module PipelineCrews {
  import opened Crew
  import P = Pipeline

  // ----- Crews

  function RLife(w: P.RenderWorker): Life {
    match w
    case NotStarted => Unborn
    case At(_) => Alive
    case RClosing => Closing
    case Finished => Gone
  }

  function WLife(w: P.Worker): Life {
    match w
    case Unborn => Unborn
    case Closing => Closing
    case Gone => Gone
    case _ => Alive
  }

  function RLives(ws: seq<P.RenderWorker>): (r: seq<Life>)
    ensures |r| == |ws| && forall i :: 0 <= i < |ws| ==> r[i] == RLife(ws[i])
  {
    seq(|ws|, i requires 0 <= i < |ws| => RLife(ws[i]))
  }

  function WLives(ws: seq<P.Worker>): (r: seq<Life>)
    ensures |r| == |ws| && forall i :: 0 <= i < |ws| ==> r[i] == WLife(ws[i])
  {
    seq(|ws|, i requires 0 <= i < |ws| => WLife(ws[i]))
  }

  lemma RLivesUpdate(ws: seq<P.RenderWorker>, i: nat, w: P.RenderWorker)
    requires i < |ws|
    ensures RLives(ws[i := w]) == RLives(ws)[i := RLife(w)]
  {
  }

  lemma WLivesUpdate(ws: seq<P.Worker>, i: nat, w: P.Worker)
    requires i < |ws|
    ensures WLives(ws[i := w]) == WLives(ws)[i := WLife(w)]
  {
  }

  // ----- Bags of block ids

  function Ids(sets: seq<P.PageSet>): (r: seq<nat>)
    ensures |r| == |sets| && forall i :: 0 <= i < |sets| ==> r[i] == sets[i].id
  {
    seq(|sets|, i requires 0 <= i < |sets| => sets[i].id)
  }

  function Bag(sets: seq<P.PageSet>): multiset<nat> { multiset(Ids(sets)) }

  lemma BagPush(sets: seq<P.PageSet>, x: P.PageSet)
    ensures Bag(sets + [x]) == Bag(sets) + multiset{x.id}
  {
    assert Ids(sets + [x]) == Ids(sets) + [x.id];
  }

  /** Blocks a renderer has still to send. */
  function RestBag(doc: seq<nat>, w: P.RenderWorker): multiset<nat> {
    match w
    case NotStarted => multiset(doc)
    case At(k) => if k <= |doc| then multiset(doc[k..]) else multiset{}
    case _ => multiset{}
  }

  function RestBags(docs: seq<seq<nat>>, ws: seq<P.RenderWorker>): (r: seq<multiset<nat>>)
    requires |ws| == |docs|
    ensures |r| == |ws| && forall i :: 0 <= i < |ws| ==> r[i] == RestBag(docs[i], ws[i])
  {
    seq(|ws|, i requires 0 <= i < |ws| => RestBag(docs[i], ws[i]))
  }

  function WorkBag(w: P.Worker): multiset<nat> {
    if w.Working? then multiset{w.x.id} else multiset{}
  }

  function SendBag(w: P.Worker): multiset<nat> {
    if w.Sending? then multiset{w.x.id} else multiset{}
  }

  function WorkBags(ws: seq<P.Worker>): (r: seq<multiset<nat>>)
    ensures |r| == |ws| && forall i :: 0 <= i < |ws| ==> r[i] == WorkBag(ws[i])
  {
    seq(|ws|, i requires 0 <= i < |ws| => WorkBag(ws[i]))
  }

  function SendBags(ws: seq<P.Worker>): (r: seq<multiset<nat>>)
    ensures |r| == |ws| && forall i :: 0 <= i < |ws| ==> r[i] == SendBag(ws[i])
  {
    seq(|ws|, i requires 0 <= i < |ws| => SendBag(ws[i]))
  }

  /** The set read first and not yet preprocessed, and its result not yet sent. */
  function MainWork(m: P.Main): multiset<nat> {
    if m.GotFirst? then multiset{m.x.id} else multiset{}
  }

  function MainSend(m: P.Main): multiset<nat> {
    if m.Spawning? then multiset{m.out.id} else multiset{}
  }

  function InWork(m: P.Main, ws: seq<P.Worker>): multiset<nat> { MainWork(m) + Total(WorkBags(ws)) }

  /** Sets that were preprocessed, whether their result is sent or not. */
  function Processed(m: P.Main, ws: seq<P.Worker>, out: seq<P.PageSet>): multiset<nat> {
    MainSend(m) + Total(SendBags(ws)) + Bag(out)
  }

  function DocBags(docs: seq<seq<nat>>): (r: seq<multiset<nat>>)
    ensures |r| == |docs| && forall i :: 0 <= i < |docs| ==> r[i] == multiset(docs[i])
  {
    seq(|docs|, i requires 0 <= i < |docs| => multiset(docs[i]))
  }

  /** All blocks to render. */
  function AllBlocks(c: P.Config): multiset<nat> { Total(DocBags(c.docs)) }

  /** At least one worker on each side, and no block twice. */
  ghost predicate ValidConfig(c: P.Config) {
    c.parallelism > 0 && c.docs != [] && forall id :: AllBlocks(c)[id] <= 1
  }

  // ----- Rendering

  predicate GoodInput(c: P.Config, x: P.PageSet) {
    x == P.RenderResult(c, x.id, !x.failed)
  }

  predicate AllGood(c: P.Config, sets: seq<P.PageSet>) {
    forall i :: 0 <= i < |sets| ==> GoodInput(c, sets[i])
  }

  ghost predicate RenderInv(c: P.Config, ws: seq<P.RenderWorker>, counter: int, ch: P.Channel) {
    && |ws| == |c.docs|
    && CrewInv(RLives(ws), counter, ch.closed)
    && (forall i :: 0 <= i < |ws| && ws[i].At? ==> ws[i].k <= |c.docs[i]|)
    && Bag(ch.hist) + Total(RestBags(c.docs, ws)) == AllBlocks(c)
    && AllGood(c, ch.hist)
  }

  lemma RenderStart(c: P.Config)
    ensures RenderInv(c, P.Init(c).renderers, 0, P.Channel([], 0, false))
  {
    var ws := P.Init(c).renderers;
    Start(RLives(ws));
    assert RestBags(c.docs, ws) == DocBags(c.docs);
    assert Bag([]) == multiset{};
  }

  lemma RestUpdate(c: P.Config, ws: seq<P.RenderWorker>, i: nat, w: P.RenderWorker)
    requires |ws| == |c.docs| && i < |ws|
    ensures Total(RestBags(c.docs, ws[i := w])) + RestBag(c.docs[i], ws[i])
            == Total(RestBags(c.docs, ws)) + RestBag(c.docs[i], w)
  {
    TotalUpdate(RestBags(c.docs, ws), i, RestBag(c.docs[i], w));
    assert RestBags(c.docs, ws[i := w]) == RestBags(c.docs, ws)[i := RestBag(c.docs[i], w)];
  }

  lemma RestSame(c: P.Config, ws: seq<P.RenderWorker>, i: nat, w: P.RenderWorker)
    requires |ws| == |c.docs| && i < |ws| && RestBag(c.docs[i], w) == RestBag(c.docs[i], ws[i])
    ensures RestBags(c.docs, ws[i := w]) == RestBags(c.docs, ws)
  {
    hide RestBag;
  }

  lemma RenderRaise(c: P.Config, ws: seq<P.RenderWorker>, counter: int, ch: P.Channel, i: nat)
    requires RenderInv(c, ws, counter, ch) && i < |ws| && ws[i].NotStarted?
    ensures RenderInv(c, ws[i := P.At(0)], counter + 1, ch)
  {
    assert c.docs[i][0..] == c.docs[i];
    assert RestBag(c.docs[i], P.At(0)) == RestBag(c.docs[i], ws[i]);
    assert RLives(ws)[i].Unborn?;
    hide CrewInv, RLives, RestBags, RestBag, Total, Bag, AllGood, AllBlocks;
    RestSame(c, ws, i, P.At(0));
    RLivesUpdate(ws, i, P.At(0));
    Raise(RLives(ws), counter, ch.closed, i);
  }

  lemma RestSend(c: P.Config, ws: seq<P.RenderWorker>, i: nat, sent: seq<P.PageSet>, x: P.PageSet)
    requires |ws| == |c.docs| && i < |ws| && ws[i].At? && ws[i].k < |c.docs[i]| && x.id == c.docs[i][ws[i].k]
    ensures var ws' := ws[i := P.At(ws[i].k + 1)];
            Bag(sent + [x]) + Total(RestBags(c.docs, ws')) == Bag(sent) + Total(RestBags(c.docs, ws))
  {
    var k, w := ws[i].k, P.At(ws[i].k + 1);
    assert c.docs[i][k..] == [c.docs[i][k]] + c.docs[i][k + 1..];
    assert RestBag(c.docs[i], ws[i]) == multiset{x.id} + RestBag(c.docs[i], w);
    hide RestBags, RestBag, Total, Bag;
    RestUpdate(c, ws, i, w);
    BagPush(sent, x);
    MoveOne(Bag(sent), Total(RestBags(c.docs, ws)), Total(RestBags(c.docs, ws[i := w])), RestBag(c.docs[i], w), x.id);
  }

  lemma RenderSend(c: P.Config, ws: seq<P.RenderWorker>, counter: int, ch: P.Channel, i: nat, ok: bool)
    requires RenderInv(c, ws, counter, ch) && i < |ws| && ws[i].At? && ws[i].k < |c.docs[i]|
    ensures RenderInv(c, ws[i := P.At(ws[i].k + 1)], counter, ch.Push(P.RenderResult(c, c.docs[i][ws[i].k], ok))) && !ch.closed
  {
    var w, x := P.At(ws[i].k + 1), P.RenderResult(c, c.docs[i][ws[i].k], ok);
    assert AllGood(c, ch.hist + [x]);
    hide CrewInv, RLives, RestBags, Total, Bag, AllBlocks, AllGood, P.RenderResult;
    SameLives(ws, i, w, counter, ch.closed);
    RestSend(c, ws, i, ch.hist, x);
  }

  lemma SameLives(ws: seq<P.RenderWorker>, i: nat, w: P.RenderWorker, counter: int, closed: bool)
    requires i < |ws| && ws[i].At? && w.At? && CrewInv(RLives(ws), counter, closed)
    ensures CrewInv(RLives(ws[i := w]), counter, closed) && !closed
  {
    assert RLives(ws)[i].Alive?;
    StillOpen(RLives(ws), counter, closed, i);
    assert RLives(ws[i := w]) == RLives(ws);
  }

  lemma MoveOne(sent: multiset<nat>, rest: multiset<nat>, rest': multiset<nat>, b: multiset<nat>, id: nat)
    requires rest' + (multiset{id} + b) == rest + b
    ensures sent + multiset{id} + rest' == sent + rest
  {
    forall x: nat
      ensures (sent + multiset{id} + rest')[x] == (sent + rest)[x]
    {
      assert (rest' + (multiset{id} + b))[x] == (rest + b)[x];
    }
  }

  lemma RenderLower(c: P.Config, ws: seq<P.RenderWorker>, counter: int, ch: P.Channel, i: nat)
    requires RenderInv(c, ws, counter, ch) && i < |ws| && ws[i].At? && ws[i].k >= |c.docs[i]|
    requires counter == 1 ==> forall j :: 0 <= j < |ws| ==> !ws[j].NotStarted?
    ensures RenderInv(c, ws[i := if counter - 1 == 0 then P.RClosing else P.Finished], counter - 1, ch)
  {
    var w := if counter - 1 == 0 then P.RClosing else P.Finished;
    hide CrewInv, RLives, RestBags, RestBag, Total, Bag, AllGood, AllBlocks;
    NothingLeft(c.docs[i], ws[i], w);
    RestSame(c, ws, i, w);
    RendererLowers(ws, counter, ch.closed, i);
  }

  lemma NothingLeft(doc: seq<nat>, w: P.RenderWorker, w': P.RenderWorker)
    requires w.At? && w.k >= |doc| && (w'.RClosing? || w'.Finished?)
    ensures RestBag(doc, w') == RestBag(doc, w)
  {
    assert w.k == |doc| ==> doc[w.k..] == [];
  }

  lemma RendererLowers(ws: seq<P.RenderWorker>, counter: int, closed: bool, i: nat)
    requires CrewInv(RLives(ws), counter, closed) && i < |ws| && ws[i].At?
    requires counter == 1 ==> forall j :: 0 <= j < |ws| ==> !ws[j].NotStarted?
    ensures CrewInv(RLives(ws[i := if counter - 1 == 0 then P.RClosing else P.Finished]), counter - 1, closed)
  {
    var w := if counter - 1 == 0 then P.RClosing else P.Finished;
    assert (counter == 1 ==> AllRaised(RLives(ws))) && RLives(ws)[i].Alive? && RLife(w) == AfterLower(counter - 1);
    hide CrewInv, RLives, RLife, AllRaised;
    RLivesUpdate(ws, i, w);
    Lower(RLives(ws), counter, closed, i);
  }

  lemma RenderClose(c: P.Config, ws: seq<P.RenderWorker>, counter: int, ch: P.Channel, i: nat)
    requires RenderInv(c, ws, counter, ch) && i < |ws| && ws[i].RClosing?
    ensures RenderInv(c, ws[i := P.Finished], counter, ch.(closed := true)) && !ch.closed
  {
    assert RestBag(c.docs[i], P.Finished) == RestBag(c.docs[i], ws[i]);
    assert RLives(ws)[i].Closing?;
    hide CrewInv, RLives, RestBags, RestBag, Total, Bag, AllGood, AllBlocks;
    RestSame(c, ws, i, P.Finished);
    RLivesUpdate(ws, i, P.Finished);
    Close(RLives(ws), counter, ch.closed, i);
  }

  predicate IsRenderStep(step: P.Step) {
    step.RStart? || step.RSend? || step.RLower? || step.RClose?
  }

  /** Every step of a renderer keeps the invariant and finds its channel open. */
  lemma RenderStep(c: P.Config, s: P.State, step: P.Step)
    requires RenderInv(c, s.renderers, s.rendering, s.rendered) && IsRenderStep(step)
    requires P.Enabled(c, s, step) && P.RenderersFirst(s, step)
    ensures var s' := P.Apply(c, s, step);
            RenderInv(c, s'.renderers, s'.rendering, s'.rendered) && s'.faults == s.faults
  {
    hide RenderInv, P.RenderResult;
    match step {
      case RStart(i) => RenderRaise(c, s.renderers, s.rendering, s.rendered, i);
      case RSend(i, ok) => RenderSend(c, s.renderers, s.rendering, s.rendered, i, ok);
      case RLower(i) => RenderLower(c, s.renderers, s.rendering, s.rendered, i);
      case RClose(i) => RenderClose(c, s.renderers, s.rendering, s.rendered, i);
      case _ =>
    }
  }

  // ----- Threads of PreprocessStream

  /** Which workers exist at each point of `PreprocessStream`. */
  ghost predicate Phase(m: P.Main, ws: seq<P.Worker>) {
    match m
    case Spawning(k, _) => k <= |ws| && forall i :: 0 <= i < |ws| ==> (ws[i].Unborn? <==> i >= k)
    case Returned => forall i :: 0 <= i < |ws| ==> !ws[i].Unborn?
    case _ => forall i :: 0 <= i < |ws| ==> ws[i].Unborn?
  }

  predicate Ended(w: P.Worker) { w.Leaving? || w.Closing? || w.Gone? }

  ghost predicate ThreadInv(c: P.Config, m: P.Main, ws: seq<P.Worker>, threads: int, closed: bool, drained: bool) {
    && |ws| == c.parallelism
    && CrewInv(WLives(ws), threads, closed)
    && Phase(m, ws)
    && (closed ==> m.Returned?)
    && ((exists i :: 0 <= i < |ws| && Ended(ws[i])) ==> drained)
  }

  lemma ThreadStart(c: P.Config)
    ensures ThreadInv(c, P.AwaitFirst, P.Init(c).workers, 0, false, false)
  {
    Start(WLives(P.Init(c).workers));
  }

  /** Moves of the main goroutine that leave the workers alone. */
  lemma ThreadMain(c: P.Config, m: P.Main, m': P.Main, ws: seq<P.Worker>, threads: int, closed: bool, drained: bool)
    requires ThreadInv(c, m, ws, threads, closed, drained)
    requires || (m.AwaitFirst? && m'.GotFirst?)
             || (m.GotFirst? && (m'.Failed? || (m'.Spawning? && m'.k == 0)))
             || (m.Failed? && m'.Failed?)
             || (m.Spawning? && m.k >= |ws| && m'.Returned?)
    ensures ThreadInv(c, m', ws, threads, closed, drained) && !closed
  {
    hide CrewInv, WLives, Ended;
  }

  lemma ThreadSpawn(c: P.Config, m: P.Main, ws: seq<P.Worker>, threads: int, closed: bool, drained: bool)
    requires ThreadInv(c, m, ws, threads, closed, drained) && m.Spawning? && m.k < |ws|
    ensures ThreadInv(c, P.Spawning(m.k + 1, m.out), ws[m.k := P.Idle], threads + 1, closed, drained)
  {
    assert WLives(ws)[m.k].Unborn?;
    hide CrewInv, WLives;
    WLivesUpdate(ws, m.k, P.Idle);
    Raise(WLives(ws), threads, closed, m.k);
  }

  /** Moves of a worker that keep it alive. */
  lemma ThreadMove(c: P.Config, m: P.Main, ws: seq<P.Worker>, threads: int, closed: bool, drained: bool, i: nat,
                   w: P.Worker)
    requires ThreadInv(c, m, ws, threads, closed, drained) && i < |ws|
    requires WLife(ws[i]).Alive? && WLife(w).Alive? && (w.Leaving? ==> drained)
    ensures ThreadInv(c, m, ws[i := w], threads, closed, drained) && !closed && (m.Spawning? || m.Returned?)
  {
    assert WLives(ws[i := w]) == WLives(ws);
    StillOpen(WLives(ws), threads, closed, i);
    hide CrewInv, WLives;
  }

  lemma ThreadLower(c: P.Config, m: P.Main, ws: seq<P.Worker>, threads: int, closed: bool, drained: bool, i: nat)
    requires ThreadInv(c, m, ws, threads, closed, drained) && i < |ws| && ws[i].Leaving?
    requires threads == 1 ==> forall j :: 0 <= j < |ws| ==> !ws[j].Unborn?
    ensures ThreadInv(c, m, ws[i := if threads - 1 == 0 then P.Closing else P.Gone], threads - 1, closed, drained)
  {
    var w := if threads - 1 == 0 then P.Closing else P.Gone;
    assert (threads == 1 ==> AllRaised(WLives(ws))) && WLives(ws)[i].Alive? && WLife(w) == AfterLower(threads - 1);
    assert Ended(ws[i]);
    hide CrewInv, WLives, AllRaised, WLife;
    WLivesUpdate(ws, i, w);
    Lower(WLives(ws), threads, closed, i);
  }

  lemma ThreadClose(c: P.Config, m: P.Main, ws: seq<P.Worker>, threads: int, closed: bool, drained: bool, i: nat)
    requires ThreadInv(c, m, ws, threads, closed, drained) && i < |ws| && ws[i].Closing? && m.Returned?
    ensures ThreadInv(c, m, ws[i := P.Gone], threads, true, drained) && !closed
  {
    assert WLives(ws)[i].Closing? && Ended(ws[i]);
    hide CrewInv, WLives;
    WLivesUpdate(ws, i, P.Gone);
    Close(WLives(ws), threads, closed, i);
  }
}
