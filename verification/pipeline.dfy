/** The page-set pipeline as a step relation: the workers of `RenderPageBlocks`
    (internal/pdf/pdf.go), `PreprocessStream` with its workers and its failure path
    (internal/omr/stream.go), and the loop of `PostScanPdf` that consumes the
    results (internal/server/handler/scan.go).

    A channel is its history, how much of it was received, and whether it is
    closed. A send on a closed channel, a second close, and reading a closed matrix
    or template are recorded as faults. Hypotheses on the schedule, and the
    capacities of the channels, are rules that a run may be asked to follow. */
module Pipeline {
  /** Matrix `k` of a block, as rendered and as preprocessed. */
  datatype Mat = Rendered(id: nat, k: nat) | Preprocessed(id: nat, k: nat)

  /** A page set: the block it comes from (its metadata), its pages, its error. */
  datatype PageSet = PageSet(id: nat, pages: seq<Mat>, failed: bool)

  datatype Channel = Channel(hist: seq<PageSet>, taken: nat, closed: bool) {
    predicate Pending() { taken < |hist| }

    predicate Drained() { closed && taken >= |hist| }

    function Push(x: PageSet): Channel { Channel(hist + [x], taken, closed) }
  }

  datatype RenderWorker = NotStarted | At(k: nat) | RClosing | Finished

  datatype Worker = Unborn | Idle | Working(x: PageSet) | Sending(x: PageSet) | Leaving | Closing | Gone

  /** `PreprocessStream` itself: reading the first set, calibrating, starting the
      workers, sending the first result; or draining the input after a failure. */
  datatype Main = AwaitFirst | GotFirst(x: PageSet) | Spawning(k: nat, out: PageSet) | Returned | Failed

  /** What stays fixed: the blocks of each sub-document, pages per block, and the
      number of preprocessing workers. */
  datatype Config = Config(docs: seq<seq<nat>>, blockSize: nat, parallelism: nat)

  datatype State = State(
    renderers: seq<RenderWorker>, rendering: int,
    rendered: Channel,
    main: Main, workers: seq<Worker>, threads: int,
    preprocessed: Channel,
    templateClosed: bool, closed: set<Mat>,
    faults: nat)

  function Init(c: Config): State {
    State(seq(|c.docs|, _ => NotStarted), 0, Channel([], 0, false),
          AwaitFirst, seq(c.parallelism, _ => Unborn), 0, Channel([], 0, false),
          false, {}, 0)
  }

  function RenderedPages(id: nat, n: nat): seq<Mat> { seq(n, (k: nat) => Rendered(id, k)) }

  function PreprocessedPages(id: nat, n: nat): seq<Mat> { seq(n, (k: nat) => Preprocessed(id, k)) }

  /** What a renderer sends for a block. */
  function RenderResult(c: Config, id: nat, ok: bool): PageSet {
    PageSet(id, if ok then RenderedPages(id, c.blockSize) else [], !ok)
  }

  /** The result of `preprocessSet`; `ok` says whether `Preprocess` succeeds. */
  function PreprocessResult(c: Config, x: PageSet, ok: bool): PageSet {
    if x.failed then x else PageSet(x.id, if ok then PreprocessedPages(x.id, c.blockSize) else [], !ok)
  }

  function PageMats(x: PageSet): set<Mat> { set m | m in x.pages }

  /** Faults of running `preprocessSet`: a page or the template already closed. */
  function Misuse(s: State, x: PageSet): nat {
    if !x.failed && (s.templateClosed || exists m :: m in x.pages && m in s.closed) then 1 else 0
  }

  /** `preprocessSet` closes the pages it used. */
  function ClosedBy(x: PageSet): set<Mat> { if x.failed then {} else PageMats(x) }

  function SendFault(ch: Channel): nat { if ch.closed then 1 else 0 }

  datatype Step =
    | RStart(i: nat) | RSend(i: nat, ok: bool) | RLower(i: nat) | RClose(i: nat)
    | MainReceive | MainCalibrate(scaled: bool, ok: bool) | MainSpawn | MainSend | MainDrain
    | Receive(i: nat) | Work(i: nat, ok: bool) | Send(i: nat) | SeeEnd(i: nat) | Lower(i: nat) | Close(i: nat)
    | Consume

  predicate Enabled(c: Config, s: State, step: Step) {
    match step
    case RStart(i) => i < |s.renderers| && s.renderers[i].NotStarted?
    case RSend(i, _) => i < |s.renderers| && i < |c.docs| && s.renderers[i].At? && s.renderers[i].k < |c.docs[i]|
    case RLower(i) => i < |s.renderers| && i < |c.docs| && s.renderers[i].At? && s.renderers[i].k >= |c.docs[i]|
    case RClose(i) => i < |s.renderers| && s.renderers[i].RClosing?
    case MainReceive => s.main.AwaitFirst? && s.rendered.Pending()
    case MainCalibrate(_, _) => s.main.GotFirst?
    case MainSpawn => s.main.Spawning? && s.main.k < |s.workers| && s.workers[s.main.k].Unborn?
    case MainSend => s.main.Spawning? && s.main.k >= |s.workers|
    case MainDrain => s.main.Failed? && s.rendered.Pending()
    case Receive(i) => i < |s.workers| && s.workers[i].Idle? && s.rendered.Pending()
    case Work(i, _) => i < |s.workers| && s.workers[i].Working?
    case Send(i) => i < |s.workers| && s.workers[i].Sending?
    case SeeEnd(i) => i < |s.workers| && s.workers[i].Idle? && s.rendered.Drained()
    case Lower(i) => i < |s.workers| && s.workers[i].Leaving?
    case Close(i) => i < |s.workers| && s.workers[i].Closing?
    case Consume => s.main.Returned? && s.preprocessed.Pending()
  }

  function Apply(c: Config, s: State, step: Step): State
    requires Enabled(c, s, step)
  {
    match step
    case RStart(i) => s.(renderers := s.renderers[i := At(0)], rendering := s.rendering + 1)
    case RSend(i, ok) =>
      var k := s.renderers[i].k;
      s.(renderers := s.renderers[i := At(k + 1)],
         rendered := s.rendered.Push(RenderResult(c, c.docs[i][k], ok)),
         faults := s.faults + SendFault(s.rendered))
    case RLower(i) =>
      s.(renderers := s.renderers[i := if s.rendering - 1 == 0 then RClosing else Finished], rendering := s.rendering - 1)
    case RClose(i) =>
      s.(renderers := s.renderers[i := Finished], rendered := s.rendered.(closed := true),
         faults := s.faults + SendFault(s.rendered))
    case MainReceive =>
      s.(main := GotFirst(s.rendered.hist[s.rendered.taken]), rendered := s.rendered.(taken := s.rendered.taken + 1))
    case MainCalibrate(scaled, ok) =>
      var x := s.main.x;
      if x.pages == [] || !scaled then
        s.(main := Failed, closed := s.closed + PageMats(x))
      else
        s.(main := Spawning(0, PreprocessResult(c, x, ok)), closed := s.closed + PageMats(x), faults := s.faults + Misuse(s, x))
    case MainSpawn =>
      s.(main := Spawning(s.main.k + 1, s.main.out), workers := s.workers[s.main.k := Idle], threads := s.threads + 1)
    case MainSend =>
      s.(main := Returned, preprocessed := s.preprocessed.Push(s.main.out), faults := s.faults + SendFault(s.preprocessed))
    case MainDrain =>
      s.(closed := s.closed + PageMats(s.rendered.hist[s.rendered.taken]), rendered := s.rendered.(taken := s.rendered.taken + 1))
    case Receive(i) =>
      s.(workers := s.workers[i := Working(s.rendered.hist[s.rendered.taken])],
         rendered := s.rendered.(taken := s.rendered.taken + 1))
    case Work(i, ok) =>
      var x := s.workers[i].x;
      s.(workers := s.workers[i := Sending(PreprocessResult(c, x, ok))],
         closed := s.closed + ClosedBy(x), faults := s.faults + Misuse(s, x))
    case Send(i) =>
      s.(workers := s.workers[i := Idle], preprocessed := s.preprocessed.Push(s.workers[i].x),
         faults := s.faults + SendFault(s.preprocessed))
    case SeeEnd(i) => s.(workers := s.workers[i := Leaving])
    case Lower(i) =>
      s.(workers := s.workers[i := if s.threads - 1 == 0 then Closing else Gone], threads := s.threads - 1)
    case Close(i) =>
      s.(workers := s.workers[i := Gone], preprocessed := s.preprocessed.(closed := true), templateClosed := true,
         faults := s.faults + SendFault(s.preprocessed))
    case Consume => s.(preprocessed := s.preprocessed.(taken := s.preprocessed.taken + 1))
  }

  // ----- Schedules

  /** The hypotheses on the schedule of the renderers and of `PreprocessStream`: no
      worker brings the counter of its stage to zero before all have raised it, and
      the output is not closed before the first result is sent. */
  predicate RenderersFirst(s: State, step: Step) {
    step.RLower? && s.rendering == 1 ==> forall i :: 0 <= i < |s.renderers| ==> !s.renderers[i].NotStarted?
  }

  predicate WorkersFirst(s: State, step: Step) {
    && (step.Lower? && s.threads == 1 ==> forall i :: 0 <= i < |s.workers| ==> !s.workers[i].Unborn?)
    && (step.Close? ==> s.main.Returned?)
  }

  predicate Disciplined(s: State, step: Step) { RenderersFirst(s, step) && WorkersFirst(s, step) }

  /** Somebody waits for the next rendered set. */
  predicate ReceiverWaits(s: State) {
    s.main.AwaitFirst? || s.main.Failed? || exists i :: 0 <= i < |s.workers| && s.workers[i].Idle?
  }

  /** The capacities of the source: the rendered channel is unbuffered, the output
      holds as many results as there are workers. A send on a closed channel does not
      wait. */
  predicate HasRoom(c: Config, s: State, step: Step) {
    match step
    case RSend(_, _) => s.rendered.closed || (!s.rendered.Pending() && ReceiverWaits(s))
    case Send(_) => OutputHasRoom(c, s)
    case MainSend => OutputHasRoom(c, s)
    case _ => true
  }

  predicate OutputHasRoom(c: Config, s: State) {
    s.preprocessed.closed || |s.preprocessed.hist| - s.preprocessed.taken < c.parallelism
  }

  /** Which hypotheses a schedule meets, and whether channels are bounded. */
  datatype Rules = Rules(renderersFirst: bool, workersFirst: bool, bounded: bool)

  predicate Allowed(c: Config, s: State, step: Step, rules: Rules) {
    && Enabled(c, s, step)
    && (rules.renderersFirst ==> RenderersFirst(s, step))
    && (rules.workersFirst ==> WorkersFirst(s, step))
    && (rules.bounded ==> HasRoom(c, s, step))
  }

  /** The steps lead from `s` to `t`, by these rules. */
  predicate Goes(c: Config, s: State, steps: seq<Step>, t: State, rules: Rules)
    decreases |steps|
  {
    if steps == [] then s == t
    else Allowed(c, s, steps[0], rules) && Goes(c, Apply(c, s, steps[0]), steps[1..], t, rules)
  }

  ghost predicate Leads(c: Config, s: State, t: State, rules: Rules) {
    exists steps: seq<Step> :: Goes(c, s, steps, t, rules)
  }

  ghost predicate Reachable(c: Config, s: State, rules: Rules) { Leads(c, Init(c), s, rules) }

  lemma {:induction false} Appended(c: Config, s: State, steps: seq<Step>, t: State, step: Step, rules: Rules)
    requires Goes(c, s, steps, t, rules) && Allowed(c, t, step, rules)
    ensures Goes(c, s, steps + [step], Apply(c, t, step), rules)
    decreases |steps|
  {
    hide Enabled, RenderersFirst, WorkersFirst, HasRoom, Apply;
    if steps == [] {
      assert [step][1..] == [] && steps + [step] == [step];
    } else {
      Appended(c, Apply(c, s, steps[0]), steps[1..], t, step, rules);
      assert (steps + [step])[1..] == steps[1..] + [step];
    }
  }

  lemma Next(c: Config, s: State, t: State, step: Step, rules: Rules)
    requires Leads(c, s, t, rules) && Allowed(c, t, step, rules)
    ensures Leads(c, s, Apply(c, t, step), rules)
  {
    var steps :| Goes(c, s, steps, t, rules);
    hide Allowed, Apply;
    Appended(c, s, steps, t, step, rules);
  }

  lemma Stay(c: Config, s: State, rules: Rules)
    ensures Leads(c, s, s, rules)
  {
    assert Goes(c, s, [], s, rules);
  }

  /** A schedule that meets more hypotheses meets fewer. */
  predicate Stricter(strict: Rules, lax: Rules) {
    && (lax.renderersFirst ==> strict.renderersFirst) && (lax.workersFirst ==> strict.workersFirst)
    && (lax.bounded ==> strict.bounded)
  }

  lemma {:induction false} Relaxed(c: Config, s: State, steps: seq<Step>, t: State, strict: Rules, lax: Rules)
    requires Goes(c, s, steps, t, strict) && Stricter(strict, lax)
    ensures Goes(c, s, steps, t, lax)
    decreases |steps|
  {
    hide Enabled, RenderersFirst, WorkersFirst, HasRoom, Apply;
    if steps != [] { Relaxed(c, Apply(c, s, steps[0]), steps[1..], t, strict, lax); }
  }

  lemma RelaxedReach(c: Config, s: State, strict: Rules, lax: Rules)
    requires Reachable(c, s, strict) && Stricter(strict, lax)
    ensures Reachable(c, s, lax)
  {
    var steps :| Goes(c, Init(c), steps, s, strict);
    hide Goes, Init;
    Relaxed(c, Init(c), steps, s, strict, lax);
  }
}
