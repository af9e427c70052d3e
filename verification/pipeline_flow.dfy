/** What flows through `PreprocessStream`: every set that was received is in work
    or accounted for in the output, and its matrices are closed exactly once it is
    no longer in work. */
module PipelineFlow {
  import opened Crew
  import opened PipelineCrews
  import P = Pipeline

  // ----- The bags after one move

  lemma WorkBagsUpdate(ws: seq<P.Worker>, i: nat, w: P.Worker)
    requires i < |ws|
    ensures WorkBags(ws[i := w]) == WorkBags(ws)[i := WorkBag(w)]
  {
  }

  lemma SendBagsUpdate(ws: seq<P.Worker>, i: nat, w: P.Worker)
    requires i < |ws|
    ensures SendBags(ws[i := w]) == SendBags(ws)[i := SendBag(w)]
  {
  }

  lemma WorkBagsSame(ws: seq<P.Worker>, i: nat, w: P.Worker)
    requires i < |ws| && WorkBag(w) == WorkBag(ws[i])
    ensures WorkBags(ws[i := w]) == WorkBags(ws)
  {
  }

  lemma SendBagsSame(ws: seq<P.Worker>, i: nat, w: P.Worker)
    requires i < |ws| && SendBag(w) == SendBag(ws[i])
    ensures SendBags(ws[i := w]) == SendBags(ws)
  {
  }

  lemma Associate(x: multiset<nat>, y: multiset<nat>, b: multiset<nat>)
    ensures x + y + b == x + (y + b)
  {
  }

  lemma Exchange(x: multiset<nat>, y: multiset<nat>, b: multiset<nat>, z: multiset<nat>)
    ensures x + (y + b) + z == x + y + z + b && x + y + (z + b) == x + (y + b) + z
  {
  }

  lemma OnReceive(m: P.Main, ws: seq<P.Worker>, i: nat, x: P.PageSet, out: seq<P.PageSet>)
    requires i < |ws| && ws[i].Idle?
    ensures var ws' := ws[i := P.Working(x)];
            InWork(m, ws') == InWork(m, ws) + multiset{x.id} && Processed(m, ws', out) == Processed(m, ws, out)
  {
    var w := P.Working(x);
    assert WorkBags(ws)[i] == multiset{} && WorkBag(w) == multiset{x.id} && SendBag(w) == SendBag(ws[i]);
    hide Total, Bag, WorkBag, SendBag, WorkBags, SendBags;
    WorkBagsUpdate(ws, i, w);
    SendBagsSame(ws, i, w);
    TotalGain(WorkBags(ws), i, multiset{x.id});
    hide MainWork, MainSend;
    Associate(MainWork(m), Total(WorkBags(ws)), multiset{x.id});
  }

  lemma OnWork(m: P.Main, ws: seq<P.Worker>, i: nat, y: P.PageSet, out: seq<P.PageSet>)
    requires i < |ws| && ws[i].Working? && y.id == ws[i].x.id
    ensures var ws' := ws[i := P.Sending(y)];
            InWork(m, ws') + multiset{y.id} == InWork(m, ws) && Processed(m, ws', out) == Processed(m, ws, out) + multiset{y.id}
  {
    var w, b := P.Sending(y), multiset{y.id};
    assert WorkBags(ws)[i] == b && SendBags(ws)[i] == multiset{} && WorkBag(w) == multiset{} && SendBag(w) == b;
    hide Total, Bag, WorkBag, SendBag, WorkBags, SendBags;
    WorkBagsUpdate(ws, i, w);
    SendBagsUpdate(ws, i, w);
    TotalLoss(WorkBags(ws), i);
    TotalGain(SendBags(ws), i, b);
    hide MainWork, MainSend;
    Associate(MainWork(m), Total(WorkBags(ws[i := w])), b);
    Exchange(MainSend(m), Total(SendBags(ws)), b, Bag(out));
  }

  lemma OnSend(m: P.Main, ws: seq<P.Worker>, i: nat, out: seq<P.PageSet>)
    requires i < |ws| && ws[i].Sending?
    ensures var ws' := ws[i := P.Idle];
            InWork(m, ws') == InWork(m, ws) && Processed(m, ws', out + [ws[i].x]) == Processed(m, ws, out)
  {
    var b := multiset{ws[i].x.id};
    assert WorkBag(P.Idle) == WorkBag(ws[i]) && SendBags(ws)[i] == b && SendBag(P.Idle) == multiset{};
    hide Total, Bag, WorkBag, SendBag, WorkBags, SendBags;
    WorkBagsSame(ws, i, P.Idle);
    SendBagsUpdate(ws, i, P.Idle);
    TotalLoss(SendBags(ws), i);
    BagPush(out, ws[i].x);
    hide MainWork, MainSend;
    Exchange(MainSend(m), Total(SendBags(ws[i := P.Idle])), b, Bag(out));
  }

  predicate Quiet(w: P.Worker) { !w.Working? && !w.Sending? }

  lemma OnQuiet(m: P.Main, ws: seq<P.Worker>, i: nat, w: P.Worker, out: seq<P.PageSet>)
    requires i < |ws| && Quiet(ws[i]) && Quiet(w)
    ensures InWork(m, ws[i := w]) == InWork(m, ws) && Processed(m, ws[i := w], out) == Processed(m, ws, out)
  {
    assert WorkBags(ws[i := w]) == WorkBags(ws) && SendBags(ws[i := w]) == SendBags(ws);
  }

  lemma OnAllQuiet(ws: seq<P.Worker>)
    requires forall i :: 0 <= i < |ws| ==> Quiet(ws[i])
    ensures Total(WorkBags(ws)) == multiset{} && Total(SendBags(ws)) == multiset{}
  {
    TotalEmpty(WorkBags(ws));
    TotalEmpty(SendBags(ws));
  }

  // ----- Closed matrices

  predicate PagesClosed(x: P.PageSet, closed: set<P.Mat>) {
    forall m :: m in x.pages ==> m in closed
  }

  ghost predicate Once(sets: seq<P.PageSet>) {
    forall id :: Bag(sets)[id] <= 1
  }

  lemma OnceMeansSame(sets: seq<P.PageSet>, j: nat, k: nat)
    requires Once(sets) && j < |sets| && k < |sets| && sets[j].id == sets[k].id
    ensures j == k
  {
    assert Bag(sets)[sets[j].id] <= 1;
    if j < k { Twice(Ids(sets), j, k); }
    if k < j { Twice(Ids(sets), k, j); }
  }

  lemma Twice(ids: seq<nat>, j: nat, k: nat)
    requires j < k < |ids| && ids[j] == ids[k]
    ensures multiset(ids)[ids[j]] >= 2
  {
    assert ids == ids[..k] + ids[k..];
    assert ids[..k][j] in multiset(ids[..k]) && ids[k..][0] in multiset(ids[k..]);
  }

  /** Closed matrices are input matrices of sets that are done with; a received set
      that is not in work has all its matrices closed. */
  ghost predicate Resources(received: seq<P.PageSet>, inWork: multiset<nat>, processed: multiset<nat>,
                            closed: set<P.Mat>, failed: bool) {
    && (forall m :: m in closed ==> m.Rendered? && (failed || m.id in processed))
    && (forall j :: 0 <= j < |received| ==> received[j].id in inWork || PagesClosed(received[j], closed))
  }

  lemma ResourcesReceive(received: seq<P.PageSet>, x: P.PageSet, inWork: multiset<nat>, processed: multiset<nat>,
                         closed: set<P.Mat>)
    requires Resources(received, inWork, processed, closed, false)
    ensures Resources(received + [x], inWork + multiset{x.id}, processed, closed, false)
  {
  }

  lemma ResourcesWork(c: P.Config, received: seq<P.PageSet>, x: P.PageSet, inWork: multiset<nat>,
                      inWork': multiset<nat>,
                      processed: multiset<nat>, closed: set<P.Mat>, closed': set<P.Mat>, failed: bool)
    requires Resources(received, inWork, processed, closed, false) && inWork == inWork' + multiset{x.id}
    requires x in received && AllGood(c, received) && Once(received)
    requires closed' == closed + P.PageMats(x)
    ensures Resources(received, inWork', processed + multiset{x.id}, closed', failed)
  {
    var k :| 0 <= k < |received| && received[k] == x;
    assert GoodInput(c, received[k]);
    forall j | 0 <= j < |received|
      ensures received[j].id in inWork' || PagesClosed(received[j], closed')
    {
      if received[j].id == x.id { OnceMeansSame(received, j, k); }
    }
  }

  lemma ResourcesDrain(c: P.Config, received: seq<P.PageSet>, x: P.PageSet, inWork: multiset<nat>,
                       processed: multiset<nat>, closed: set<P.Mat>)
    requires Resources(received, inWork, processed, closed, true) && GoodInput(c, x)
    ensures Resources(received + [x], inWork, processed, closed + P.PageMats(x), true)
  {
  }

  /** A set that is in work has no closed page. */
  lemma WorkIsOpen(c: P.Config, received: seq<P.PageSet>, x: P.PageSet, inWork: multiset<nat>,
                   processed: multiset<nat>, closed: set<P.Mat>)
    requires Resources(received, inWork, processed, closed, false) && Once(received) && GoodInput(c, x)
    requires Bag(received) == inWork + processed && x.id in inWork
    ensures forall m :: m in x.pages ==> m !in closed
  {
    assert Bag(received)[x.id] <= 1;
    assert x.id !in processed;
  }

  // ----- The flow invariant

  /** Every set being worked on was received. */
  predicate Held(m: P.Main, ws: seq<P.Worker>, received: seq<P.PageSet>) {
    && (m.GotFirst? ==> m.x in received)
    && (forall i :: 0 <= i < |ws| && ws[i].Working? ==> ws[i].x in received)
  }

  /** A result has an error and no pages, or all its pages, preprocessed. */
  predicate GoodResult(c: P.Config, y: P.PageSet) {
    y.pages == if y.failed then [] else P.PreprocessedPages(y.id, c.blockSize)
  }

  predicate GoodResults(c: P.Config, m: P.Main, ws: seq<P.Worker>, out: seq<P.PageSet>) {
    && (m.Spawning? ==> GoodResult(c, m.out))
    && (forall i :: 0 <= i < |ws| && ws[i].Sending? ==> GoodResult(c, ws[i].x))
    && (forall i :: 0 <= i < |out| ==> GoodResult(c, out[i]))
  }

  ghost predicate FlowInv(c: P.Config, m: P.Main, ws: seq<P.Worker>, received: seq<P.PageSet>, out: seq<P.PageSet>,
                          closed: set<P.Mat>) {
    && (!m.Failed? ==> Bag(received) == InWork(m, ws) + Processed(m, ws, out))
    && Held(m, ws, received)
    && GoodResults(c, m, ws, out)
    && Resources(received, InWork(m, ws), Processed(m, ws, out), closed, m.Failed?)
  }

  lemma FlowStart(c: P.Config)
    ensures FlowInv(c, P.AwaitFirst, P.Init(c).workers, [], [], {})
  {
    OnAllQuiet(P.Init(c).workers);
  }

  lemma FlowMainReceive(c: P.Config, ws: seq<P.Worker>, received: seq<P.PageSet>, x: P.PageSet, out: seq<P.PageSet>,
                        closed: set<P.Mat>)
    requires FlowInv(c, P.AwaitFirst, ws, received, out, closed)
    ensures FlowInv(c, P.GotFirst(x), ws, received + [x], out, closed)
  {
    OnMainReceive(x, ws, out);
    hide InWork, Processed, Bag, Resources;
    BagPush(received, x);
    ResourcesReceive(received, x, InWork(P.AwaitFirst, ws), Processed(P.AwaitFirst, ws, out), closed);
    Extend(Bag(received), InWork(P.AwaitFirst, ws), Processed(P.AwaitFirst, ws, out), multiset{x.id});
  }

  lemma Extend(r: multiset<nat>, x: multiset<nat>, y: multiset<nat>, b: multiset<nat>)
    requires r == x + y
    ensures r + b == x + b + y
  {
  }

  lemma OnMainReceive(x: P.PageSet, ws: seq<P.Worker>, out: seq<P.PageSet>)
    ensures InWork(P.GotFirst(x), ws) == InWork(P.AwaitFirst, ws) + multiset{x.id}
    ensures Processed(P.GotFirst(x), ws, out) == Processed(P.AwaitFirst, ws, out)
  {
    hide Total, Bag, WorkBags, SendBags;
  }

  lemma FlowReceive(c: P.Config, m: P.Main, ws: seq<P.Worker>, i: nat, received: seq<P.PageSet>, x: P.PageSet,
                    out: seq<P.PageSet>, closed: set<P.Mat>)
    requires FlowInv(c, m, ws, received, out, closed) && i < |ws| && ws[i].Idle? && !m.Failed?
    ensures FlowInv(c, m, ws[i := P.Working(x)], received + [x], out, closed)
  {
    hide InWork, Processed, Bag, Resources;
    BagPush(received, x);
    OnReceive(m, ws, i, x, out);
    ResourcesReceive(received, x, InWork(m, ws), Processed(m, ws, out), closed);
    Extend(Bag(received), InWork(m, ws), Processed(m, ws, out), multiset{x.id});
  }

  /** One set goes from being in work to being processed, and its pages close. */
  lemma FinishOne(c: P.Config, received: seq<P.PageSet>, x: P.PageSet, inWork: multiset<nat>, inWork': multiset<nat>,
                  processed: multiset<nat>, closed: set<P.Mat>)
    requires Resources(received, inWork, processed, closed, false) && inWork == inWork' + multiset{x.id}
    requires Bag(received) == inWork + processed
    requires x in received && AllGood(c, received) && Once(received)
    ensures Resources(received, inWork', processed + multiset{x.id}, closed + P.PageMats(x), false)
    ensures Bag(received) == inWork' + (processed + multiset{x.id})
    ensures forall m :: m in x.pages ==> m !in closed
  {
    var k :| 0 <= k < |received| && received[k] == x;
    assert GoodInput(c, received[k]) && x.id in inWork;
    hide Resources, Bag, GoodInput, Once, AllGood, P.PageMats;
    WorkIsOpen(c, received, x, inWork, processed, closed);
    ResourcesWork(c, received, x, inWork, inWork', processed, closed, closed + P.PageMats(x), false);
    Move(inWork', processed, multiset{x.id});
  }

  lemma Move(x: multiset<nat>, y: multiset<nat>, b: multiset<nat>)
    ensures x + b + y == x + (y + b)
  {
  }

  lemma GoodOutcome(c: P.Config, received: seq<P.PageSet>, x: P.PageSet, ok: bool)
    requires x in received && AllGood(c, received)
    ensures GoodResult(c, P.PreprocessResult(c, x, ok)) && P.PreprocessResult(c, x, ok).id == x.id
    ensures P.ClosedBy(x) == P.PageMats(x)
  {
    var k :| 0 <= k < |received| && received[k] == x;
    assert GoodInput(c, received[k]);
  }

  lemma FlowWork(c: P.Config, m: P.Main, ws: seq<P.Worker>, i: nat, received: seq<P.PageSet>, ok: bool,
                 out: seq<P.PageSet>, closed: set<P.Mat>)
    requires FlowInv(c, m, ws, received, out, closed) && i < |ws| && ws[i].Working? && !m.Failed?
    requires AllGood(c, received) && Once(received)
    ensures FlowInv(c, m, ws[i := P.Sending(P.PreprocessResult(c, ws[i].x, ok))], received, out, closed + P.ClosedBy(ws[i].x))
    ensures forall m :: m in ws[i].x.pages ==> m !in closed
  {
    var x, y := ws[i].x, P.PreprocessResult(c, ws[i].x, ok);
    assert x in received;
    hide InWork, Processed, Bag, Resources, GoodInput, GoodResult, P.PageMats, P.ClosedBy, P.PreprocessResult, Once,
         AllGood, Held, GoodResults;
    GoodOutcome(c, received, x, ok);
    HeldWork(m, ws, i, y, received);
    ResultsWork(c, m, ws, i, y, out);
    OnWork(m, ws, i, y, out);
    FinishOne(c, received, x, InWork(m, ws), InWork(m, ws[i := P.Sending(y)]), Processed(m, ws, out), closed);
  }

  lemma HeldWork(m: P.Main, ws: seq<P.Worker>, i: nat, y: P.PageSet, received: seq<P.PageSet>)
    requires Held(m, ws, received) && i < |ws|
    ensures Held(m, ws[i := P.Sending(y)], received)
  {
  }

  lemma ResultsWork(c: P.Config, m: P.Main, ws: seq<P.Worker>, i: nat, y: P.PageSet, out: seq<P.PageSet>)
    requires GoodResults(c, m, ws, out) && i < |ws| && GoodResult(c, y)
    ensures GoodResults(c, m, ws[i := P.Sending(y)], out)
  {
    hide GoodResult;
  }

  lemma FlowSend(c: P.Config, m: P.Main, ws: seq<P.Worker>, i: nat, received: seq<P.PageSet>, out: seq<P.PageSet>,
                 closed: set<P.Mat>)
    requires FlowInv(c, m, ws, received, out, closed) && i < |ws| && ws[i].Sending?
    ensures FlowInv(c, m, ws[i := P.Idle], received, out + [ws[i].x], closed)
  {
    hide InWork, Processed, Bag, Resources;
    OnSend(m, ws, i, out);
  }

  lemma FlowQuiet(c: P.Config, m: P.Main, ws: seq<P.Worker>, i: nat, w: P.Worker, received: seq<P.PageSet>,
                  out: seq<P.PageSet>, closed: set<P.Mat>)
    requires FlowInv(c, m, ws, received, out, closed) && i < |ws| && Quiet(ws[i]) && Quiet(w)
    ensures FlowInv(c, m, ws[i := w], received, out, closed)
  {
    hide InWork, Processed, Bag, Resources;
    OnQuiet(m, ws, i, w, out);
  }

  lemma FlowCalibrate(c: P.Config, m: P.Main, ws: seq<P.Worker>, received: seq<P.PageSet>, ok: bool,
                      out: seq<P.PageSet>, closed: set<P.Mat>)
    requires FlowInv(c, m, ws, received, out, closed) && m.GotFirst? && AllGood(c, received) && Once(received)
    ensures FlowInv(c, P.Spawning(0, P.PreprocessResult(c, m.x, ok)), ws, received, out, closed + P.PageMats(m.x))
    ensures forall m' :: m' in m.x.pages ==> m' !in closed
  {
    var x, y := m.x, P.PreprocessResult(c, m.x, ok);
    var m' := P.Spawning(0, y);
    assert x in received;
    hide InWork, Processed, Bag, Resources, GoodInput, GoodResult, P.PageMats, P.ClosedBy, P.PreprocessResult, Once,
         AllGood, Held, GoodResults;
    HeldLater(m, m', ws, received);
    ResultsLater(c, m, m', ws, out);
    OnCalibrate(m, m', ws, out);
    GoodOutcome(c, received, x, ok);
    FinishOne(c, received, x, InWork(m, ws), InWork(m', ws), Processed(m, ws, out), closed);
  }

  lemma HeldLater(m: P.Main, m': P.Main, ws: seq<P.Worker>, received: seq<P.PageSet>)
    requires Held(m, ws, received) && !m'.GotFirst?
    ensures Held(m', ws, received)
  {
  }

  lemma ResultsLater(c: P.Config, m: P.Main, m': P.Main, ws: seq<P.Worker>, out: seq<P.PageSet>)
    requires GoodResults(c, m, ws, out)
    ensures (m'.Spawning? ==> GoodResult(c, m'.out)) ==> GoodResults(c, m', ws, out)
  {
    hide GoodResult;
  }

  lemma OnCalibrate(m: P.Main, m': P.Main, ws: seq<P.Worker>, out: seq<P.PageSet>)
    requires m.GotFirst? && m'.Spawning? && m'.out.id == m.x.id
    ensures InWork(m, ws) == InWork(m', ws) + multiset{m.x.id}
    ensures Processed(m', ws, out) == Processed(m, ws, out) + multiset{m.x.id}
  {
    hide Total, Bag, WorkBags, SendBags;
  }

  /** `PreprocessStream` fails: it closes the first set. */
  lemma FlowFail(c: P.Config, m: P.Main, ws: seq<P.Worker>, received: seq<P.PageSet>, out: seq<P.PageSet>,
                 closed: set<P.Mat>)
    requires FlowInv(c, m, ws, received, out, closed) && m.GotFirst? && AllGood(c, received) && Once(received)
    ensures FlowInv(c, P.Failed, ws, received, out, closed + P.PageMats(m.x))
  {
    hide InWork, Processed, Bag, Resources, P.PageMats, Once, AllGood;
    var id, closed' := m.x.id, closed + P.PageMats(m.x);
    OnFail(m, ws);
    ResourcesWork(c, received, m.x, InWork(m, ws), InWork(P.Failed, ws), Processed(m, ws, out), closed, closed', true);
    ResourcesFailed(received, InWork(P.Failed, ws), Processed(m, ws, out) + multiset{id}, Processed(P.Failed, ws, out), closed');
  }

  lemma OnFail(m: P.Main, ws: seq<P.Worker>)
    requires m.GotFirst?
    ensures InWork(m, ws) == InWork(P.Failed, ws) + multiset{m.x.id}
  {
    hide Total, WorkBags;
  }

  /** After a failure it does not matter which sets count as processed. */
  lemma ResourcesFailed(received: seq<P.PageSet>, inWork: multiset<nat>, processed: multiset<nat>,
                        processed': multiset<nat>, closed: set<P.Mat>)
    requires Resources(received, inWork, processed, closed, true)
    ensures Resources(received, inWork, processed', closed, true)
  {
  }

  lemma FlowSpawned(c: P.Config, m: P.Main, m': P.Main, ws: seq<P.Worker>, received: seq<P.PageSet>,
                    out: seq<P.PageSet>, closed: set<P.Mat>)
    requires FlowInv(c, m, ws, received, out, closed) && m.Spawning? && m'.Spawning? && m'.out == m.out
    ensures FlowInv(c, m', ws, received, out, closed)
  {
    assert GoodResult(c, m'.out);
    hide InWork, Processed, Bag, Resources, Held, GoodResults, GoodResult;
    OnSpawned(m, m', ws, out);
    HeldLater(m, m', ws, received);
    ResultsLater(c, m, m', ws, out);
  }

  lemma OnSpawned(m: P.Main, m': P.Main, ws: seq<P.Worker>, out: seq<P.PageSet>)
    requires m.Spawning? && m'.Spawning? && m'.out == m.out
    ensures InWork(m, ws) == InWork(m', ws) && Processed(m', ws, out) == Processed(m, ws, out)
  {
    hide Total, Bag, WorkBags, SendBags;
  }

  lemma FlowMainSend(c: P.Config, m: P.Main, ws: seq<P.Worker>, received: seq<P.PageSet>, out: seq<P.PageSet>,
                     closed: set<P.Mat>)
    requires FlowInv(c, m, ws, received, out, closed) && m.Spawning?
    ensures FlowInv(c, P.Returned, ws, received, out + [m.out], closed)
  {
    BagPush(out, m.out);
    assert InWork(m, ws) == InWork(P.Returned, ws) && Processed(P.Returned, ws, out + [m.out]) == Processed(m, ws, out);
    hide InWork, Processed, Bag, Resources;
  }

  lemma FlowDrain(c: P.Config, ws: seq<P.Worker>, received: seq<P.PageSet>, x: P.PageSet, out: seq<P.PageSet>,
                  closed: set<P.Mat>)
    requires FlowInv(c, P.Failed, ws, received, out, closed) && GoodInput(c, x)
    ensures FlowInv(c, P.Failed, ws, received + [x], out, closed + P.PageMats(x))
  {
    hide InWork, Processed, Bag, Resources, P.PageMats;
    ResourcesDrain(c, received, x, InWork(P.Failed, ws), Processed(P.Failed, ws, out), closed);
  }
}
