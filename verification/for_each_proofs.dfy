/** `ForEach` over whole runs: each received set is answered once, and all sets are
    answered in every run exactly when too few of them make the callback fail. */
module ForEachProofs {
  import opened Crew
  import opened Arithmetic
  import F = ForEach

  function LifeOf(w: F.Worker): Life {
    match w
    case Unborn => Unborn
    case Closing(_) => Closing
    case Gone(_) => Gone
    case _ => Alive
  }

  function Lives(ws: seq<F.Worker>): (r: seq<Life>)
    ensures |r| == |ws| && forall i :: 0 <= i < |ws| ==> r[i] == LifeOf(ws[i])
  {
    seq(|ws|, i requires 0 <= i < |ws| => LifeOf(ws[i]))
  }

  lemma LivesUpdate(ws: seq<F.Worker>, i: nat, w: F.Worker)
    requires i < |ws|
    ensures Lives(ws[i := w]) == Lives(ws)[i := LifeOf(w)]
  {
  }

  predicate Ended(w: F.Worker) { w.Leaving? || w.Closing? || w.Gone? }

  // ----- Threads

  ghost predicate ThreadInv(c: F.Config, s: F.State) {
    CrewInv(Lives(s.workers), s.threads, s.outClosed) && Bookkept(c, s) && s.faults == 0
  }

  /** Who exists, what was provided, and that a worker which left without an error saw
      the end of the input. */
  predicate Bookkept(c: F.Config, s: F.State) {
    && |s.workers| == c.parallelism
    && s.spawned <= |s.workers|
    && (forall i :: 0 <= i < |s.workers| ==> (s.workers[i].Unborn? <==> i >= s.spawned))
    && s.taken <= s.provided <= |c.inputs|
    && (s.inputClosed ==> s.provided == |c.inputs|)
    && (forall i :: 0 <= i < |s.workers| && Ended(s.workers[i]) && !s.workers[i].failed ==>
          s.inputClosed && s.taken == |c.inputs|)
  }

  lemma ThreadStart(c: F.Config)
    ensures ThreadInv(c, F.Init(c))
  {
    Start(Lives(F.Init(c).workers));
  }

  /** A worker that stays alive. */
  lemma MoveKeeps(ws: seq<F.Worker>, threads: int, closed: bool, i: nat, w: F.Worker)
    requires i < |ws| && CrewInv(Lives(ws), threads, closed) && LifeOf(ws[i]).Alive? && LifeOf(w).Alive?
    ensures CrewInv(Lives(ws[i := w]), threads, closed) && !closed
  {
    StillOpen(Lives(ws), threads, closed, i);
    assert Lives(ws[i := w]) == Lives(ws);
  }

  lemma SpawnKeeps(ws: seq<F.Worker>, threads: int, closed: bool, i: nat)
    requires i < |ws| && CrewInv(Lives(ws), threads, closed) && ws[i].Unborn?
    ensures CrewInv(Lives(ws[i := F.Idle]), threads + 1, closed)
  {
    LivesUpdate(ws, i, F.Idle);
    Raise(Lives(ws), threads, closed, i);
  }

  lemma LowerKeeps(ws: seq<F.Worker>, threads: int, closed: bool, i: nat, failed: bool)
    requires i < |ws| && CrewInv(Lives(ws), threads, closed) && ws[i].Leaving?
    requires threads == 1 ==> forall j :: 0 <= j < |ws| ==> !ws[j].Unborn?
    ensures CrewInv(Lives(ws[i := if threads - 1 == 0 then F.Closing(failed) else F.Gone(failed)]), threads - 1, closed)
  {
    LivesUpdate(ws, i, if threads - 1 == 0 then F.Closing(failed) else F.Gone(failed));
    Lower(Lives(ws), threads, closed, i);
  }

  lemma CloseKeeps(ws: seq<F.Worker>, threads: int, closed: bool, i: nat, failed: bool)
    requires i < |ws| && CrewInv(Lives(ws), threads, closed) && ws[i].Closing?
    ensures CrewInv(Lives(ws[i := F.Gone(failed)]), threads, true) && !closed
  {
    LivesUpdate(ws, i, F.Gone(failed));
    Close(Lives(ws), threads, closed, i);
  }

  /** The worker a step changes, and what it becomes. */
  function Changed(s: F.State, step: F.Step): int {
    match step
    case Provide => -1
    case CloseInput => -1
    case Spawn => s.spawned
    case _ => step.i
  }

  lemma BookStep(c: F.Config, s: F.State, step: F.Step)
    requires Bookkept(c, s) && F.Enabled(c, s, step)
    ensures Bookkept(c, F.Apply(c, s, step))
  {
  }

  lemma CrewStep(c: F.Config, s: F.State, step: F.Step)
    requires ThreadInv(c, s) && F.Enabled(c, s, step) && F.Disciplined(s, step)
    ensures var s' := F.Apply(c, s, step); CrewInv(Lives(s'.workers), s'.threads, s'.outClosed) && s'.faults == 0
  {
    hide CrewInv, Lives;
    match step {
      case Spawn => SpawnKeeps(s.workers, s.threads, s.outClosed, s.spawned);
      case Lower(i) => LowerKeeps(s.workers, s.threads, s.outClosed, i, s.workers[i].failed);
      case Close(i) => CloseKeeps(s.workers, s.threads, s.outClosed, i, s.workers[i].failed);
      case Provide =>
      case CloseInput =>
      case _ => MoveKeeps(s.workers, s.threads, s.outClosed, step.i, F.Apply(c, s, step).workers[step.i]);
    }
  }

  lemma ThreadStep(c: F.Config, s: F.State, step: F.Step)
    requires ThreadInv(c, s) && F.Enabled(c, s, step) && F.Disciplined(s, step)
    ensures ThreadInv(c, F.Apply(c, s, step))
  {
    BookStep(c, s, step);
    CrewStep(c, s, step);
    hide CrewInv, Bookkept, F.Apply, F.Enabled, F.Disciplined;
  }

  // ----- Each received set is answered once

  /** The set a worker holds, or -1. */
  function Holding(w: F.Worker): int {
    match w
    case Calling(j) => j
    case Sending(a) => a.set_
    case _ => -1
  }

  function Held(w: F.Worker): multiset<nat> {
    if Holding(w) >= 0 then multiset{Holding(w)} else multiset{}
  }

  function HeldBy(ws: seq<F.Worker>): (r: seq<multiset<nat>>)
    ensures |r| == |ws| && forall i :: 0 <= i < |ws| ==> r[i] == Held(ws[i])
  {
    seq(|ws|, i requires 0 <= i < |ws| => Held(ws[i]))
  }

  function Answered(out: seq<F.Answer>): multiset<nat> {
    if out == [] then multiset{} else Answered(out[..|out| - 1]) + multiset{out[|out| - 1].set_}
  }

  function FirstSets(n: nat): multiset<nat> {
    if n == 0 then multiset{} else FirstSets(n - 1) + multiset{n - 1}
  }

  function KindFor(x: F.Input): F.Kind {
    match x
    case Erroneous => F.PassedDown
    case CallbackFails => F.CallbackError
    case CallbackSucceeds => F.Done
  }

  predicate GoodAnswer(c: F.Config, a: F.Answer) {
    a.set_ < |c.inputs| && a.kind == KindFor(c.inputs[a.set_])
  }

  /** Every received set is held or answered. */
  ghost predicate Balanced(taken: nat, ws: seq<F.Worker>, out: seq<F.Answer>) {
    FirstSets(taken) == Total(HeldBy(ws)) + Answered(out)
  }

  /** An answer is the one its set calls for, and a callback error has closed the
      pages of its set. */
  predicate RightAnswer(c: F.Config, a: F.Answer, closed: set<nat>) {
    GoodAnswer(c, a) && (a.kind.CallbackError? ==> a.set_ in closed)
  }

  predicate Consistent(c: F.Config, ws: seq<F.Worker>, out: seq<F.Answer>, closed: set<nat>) {
    && (forall i :: 0 <= i < |ws| && ws[i].Calling? ==> ws[i].j < |c.inputs| && !c.inputs[ws[i].j].Erroneous?)
    && (forall i :: 0 <= i < |ws| && ws[i].Sending? ==> RightAnswer(c, ws[i].a, closed))
    && (forall k :: 0 <= k < |out| ==> RightAnswer(c, out[k], closed))
    && (forall j :: j in closed ==> j < |c.inputs| && c.inputs[j].CallbackFails?)
  }

  ghost predicate AnswerInv(c: F.Config, s: F.State) {
    Balanced(s.taken, s.workers, s.out) && Consistent(c, s.workers, s.out, s.pagesClosed)
  }

  lemma AnsweredPush(out: seq<F.Answer>, a: F.Answer)
    ensures Answered(out + [a]) == Answered(out) + multiset{a.set_}
  {
    assert (out + [a])[..|out|] == out;
  }

  lemma HeldUpdate(ws: seq<F.Worker>, i: nat, w: F.Worker)
    requires i < |ws|
    ensures Held(ws[i]) == multiset{} ==> Total(HeldBy(ws[i := w])) == Total(HeldBy(ws)) + Held(w)
    ensures Held(w) == multiset{} ==> Total(HeldBy(ws[i := w])) + Held(ws[i]) == Total(HeldBy(ws))
    ensures Held(w) == Held(ws[i]) ==> Total(HeldBy(ws[i := w])) == Total(HeldBy(ws))
  {
    assert HeldBy(ws[i := w]) == HeldBy(ws)[i := Held(w)];
    if Held(w) == Held(ws[i]) { assert HeldBy(ws[i := w]) == HeldBy(ws); }
    if Held(ws[i]) == multiset{} { TotalGain(HeldBy(ws), i, Held(w)); }
    if Held(w) == multiset{} { TotalLoss(HeldBy(ws), i); }
  }

  lemma AnswerStart(c: F.Config)
    ensures AnswerInv(c, F.Init(c))
  {
    TotalEmpty(HeldBy(F.Init(c).workers));
  }

  lemma Shuffle(h: multiset<nat>, o: multiset<nat>, b: multiset<nat>)
    ensures h + b + o == h + o + b && h + (o + b) == h + b + o
  {
  }

  lemma BalancedReceive(taken: nat, ws: seq<F.Worker>, out: seq<F.Answer>, i: nat, w: F.Worker)
    requires Balanced(taken, ws, out) && i < |ws| && Held(ws[i]) == multiset{} && Held(w) == multiset{taken}
    ensures Balanced(taken + 1, ws[i := w], out)
  {
    hide Total, HeldBy, Answered, Held;
    HeldUpdate(ws, i, w);
    Shuffle(Total(HeldBy(ws)), Answered(out), multiset{taken});
  }

  lemma BalancedSend(taken: nat, ws: seq<F.Worker>, out: seq<F.Answer>, i: nat, w: F.Worker)
    requires Balanced(taken, ws, out) && i < |ws| && ws[i].Sending? && Held(w) == multiset{}
    ensures Balanced(taken, ws[i := w], out + [ws[i].a])
  {
    assert Held(ws[i]) == multiset{ws[i].a.set_};
    hide Total, HeldBy, Answered, Held, FirstSets;
    HeldUpdate(ws, i, w);
    AnsweredPush(out, ws[i].a);
    Shuffle(Total(HeldBy(ws[i := w])), Answered(out), multiset{ws[i].a.set_});
  }

  lemma BalancedStay(taken: nat, ws: seq<F.Worker>, out: seq<F.Answer>, i: nat, w: F.Worker)
    requires Balanced(taken, ws, out) && i < |ws| && Held(w) == Held(ws[i])
    ensures Balanced(taken, ws[i := w], out)
  {
    hide Total, HeldBy, Answered, Held, FirstSets;
    HeldUpdate(ws, i, w);
  }

  /** A worker changes, after some set's pages may have been closed and some answer sent. */
  lemma ConsistentMove(c: F.Config, ws: seq<F.Worker>, out: seq<F.Answer>, closed: set<nat>, i: nat, w: F.Worker,
                       closed': set<nat>, out': seq<F.Answer>)
    requires Consistent(c, ws, out, closed) && i < |ws|
    requires w.Calling? ==> w.j < |c.inputs| && !c.inputs[w.j].Erroneous?
    requires w.Sending? ==> RightAnswer(c, w.a, closed')
    requires closed' == closed || (ws[i].Calling? && closed' == closed + {ws[i].j} && c.inputs[ws[i].j].CallbackFails?)
    requires out' == out || (ws[i].Sending? && out' == out + [ws[i].a])
    ensures Consistent(c, ws[i := w], out', closed')
  {
  }

  lemma ConsistentStep(c: F.Config, s: F.State, step: F.Step)
    requires Consistent(c, s.workers, s.out, s.pagesClosed) && F.Enabled(c, s, step)
    ensures var s' := F.Apply(c, s, step); Consistent(c, s'.workers, s'.out, s'.pagesClosed)
  {
    if step.Provide? || step.CloseInput? { return; }
    var i := Changed(s, step);
    assert s.workers[i].Calling? ==> !c.inputs[s.workers[i].j].Erroneous?;
    hide Consistent;
    var s' := F.Apply(c, s, step);
    ConsistentMove(c, s.workers, s.out, s.pagesClosed, i, s'.workers[i], s'.pagesClosed, s'.out);
  }

  lemma HeldAfter(c: F.Config, s: F.State, step: F.Step, i: nat, w: F.Worker)
    requires F.Enabled(c, s, step) && !step.Provide? && !step.CloseInput?
    requires i == Changed(s, step) && w == F.Apply(c, s, step).workers[i]
    ensures if step.Receive? then Holding(s.workers[i]) == -1 && Holding(w) == s.taken
            else if step.Send? then Holding(w) == -1
            else Holding(w) == Holding(s.workers[i])
  {
  }

  lemma AnswerStep(c: F.Config, s: F.State, step: F.Step)
    requires AnswerInv(c, s) && F.Enabled(c, s, step)
    ensures AnswerInv(c, F.Apply(c, s, step))
  {
    hide Balanced, Consistent, Holding;
    ConsistentStep(c, s, step);
    if step.Provide? || step.CloseInput? { return; }
    var i := Changed(s, step);
    var w := F.Apply(c, s, step).workers[i];
    HeldAfter(c, s, step, i, w);
    if step.Receive? {
      BalancedReceive(s.taken, s.workers, s.out, i, w);
    } else if step.Send? {
      BalancedSend(s.taken, s.workers, s.out, i, w);
    } else {
      BalancedStay(s.taken, s.workers, s.out, i, w);
    }
  }

  // ----- Callback errors and the workers they end

  /** The worker holds a set that ends it, or was ended by one. */
  function Doomed(c: F.Config, w: F.Worker): nat {
    match w
    case Calling(j) => if j < |c.inputs| && c.inputs[j].CallbackFails? then 1 else 0
    case Sending(a) => if a.kind.CallbackError? then 1 else 0
    case Unborn => 0
    case Idle => 0
    case _ => if w.failed then 1 else 0
  }

  function EndedByError(w: F.Worker): nat { if Ended(w) && w.failed then 1 else 0 }

  function DoomedOf(c: F.Config, ws: seq<F.Worker>): (r: seq<nat>)
    ensures |r| == |ws| && forall i :: 0 <= i < |ws| ==> r[i] == Doomed(c, ws[i])
  {
    seq(|ws|, i requires 0 <= i < |ws| => Doomed(c, ws[i]))
  }

  function EndedOf(ws: seq<F.Worker>): (r: seq<nat>)
    ensures |r| == |ws| && forall i :: 0 <= i < |ws| ==> r[i] == EndedByError(ws[i])
  {
    seq(|ws|, i requires 0 <= i < |ws| => EndedByError(ws[i]))
  }

  /** Each callback failure ends one worker, each ended worker sent one such error. */
  ghost predicate ErrorInv(c: F.Config, s: F.State) {
    && s.taken <= |c.inputs|
    && Sum(DoomedOf(c, s.workers)) == F.Failing(c.inputs, s.taken)
    && Sum(EndedOf(s.workers)) == F.Errors(s.out)
  }

  lemma DoomedUpdate(c: F.Config, ws: seq<F.Worker>, i: nat, w: F.Worker)
    requires i < |ws|
    ensures Sum(DoomedOf(c, ws[i := w])) + Doomed(c, ws[i]) == Sum(DoomedOf(c, ws)) + Doomed(c, w)
    ensures Sum(EndedOf(ws[i := w])) + EndedByError(ws[i]) == Sum(EndedOf(ws)) + EndedByError(w)
  {
    SumUpdate(DoomedOf(c, ws), i, Doomed(c, w));
    assert DoomedOf(c, ws[i := w]) == DoomedOf(c, ws)[i := Doomed(c, w)];
    SumUpdate(EndedOf(ws), i, EndedByError(w));
    assert EndedOf(ws[i := w]) == EndedOf(ws)[i := EndedByError(w)];
  }

  lemma ErrorStart(c: F.Config)
    ensures ErrorInv(c, F.Init(c))
  {
    SumConstant(DoomedOf(c, F.Init(c).workers), 0);
    SumConstant(EndedOf(F.Init(c).workers), 0);
  }

  lemma ErrorsPush(out: seq<F.Answer>, a: F.Answer)
    ensures F.Errors(out + [a]) == F.Errors(out) + if a.kind.CallbackError? then 1 else 0
  {
    assert (out + [a])[..|out|] == out;
  }

  /** How a step changes what the worker stands for. */
  lemma DoomedAfter(c: F.Config, s: F.State, step: F.Step, i: nat, w: F.Worker)
    requires F.Enabled(c, s, step) && !step.Provide? && !step.CloseInput?
    requires i == Changed(s, step) && w == F.Apply(c, s, step).workers[i]
    ensures step.Receive? ==> s.taken < |c.inputs|
    ensures Doomed(c, w) == Doomed(c, s.workers[i]) + if step.Receive? && c.inputs[s.taken].CallbackFails? then 1 else 0
    ensures EndedByError(w)
            == EndedByError(s.workers[i]) + if step.Send? && s.workers[i].a.kind.CallbackError? then 1 else 0
  {
  }

  lemma ErrorStep(c: F.Config, s: F.State, step: F.Step)
    requires ErrorInv(c, s) && F.Enabled(c, s, step)
    ensures ErrorInv(c, F.Apply(c, s, step))
  {
    hide Sum, DoomedOf, EndedOf, F.Errors, Doomed, EndedByError;
    if step.Provide? || step.CloseInput? { return; }
    var i := Changed(s, step);
    DoomedAfter(c, s, step, i, F.Apply(c, s, step).workers[i]);
    DoomedUpdate(c, s.workers, i, F.Apply(c, s, step).workers[i]);
    if step.Send? { ErrorsPush(s.out, s.workers[i].a); }
  }

  // ----- Whole runs

  ghost predicate Inv(c: F.Config, s: F.State) {
    ThreadInv(c, s) && AnswerInv(c, s) && ErrorInv(c, s)
  }

  /** Nobody consumes before all workers are spawned. */
  predicate Filled(c: F.Config, s: F.State) {
    s.spawned < |s.workers| ==> |s.out| <= c.parallelism
  }

  lemma FilledStep(c: F.Config, s: F.State, step: F.Step)
    requires ThreadInv(c, s) && Filled(c, s) && F.Enabled(c, s, step) && F.HasRoom(c, s, step)
    ensures Filled(c, F.Apply(c, s, step))
  {
    hide Bookkept;
    if step.Send? { StillOpen(Lives(s.workers), s.threads, s.outClosed, step.i); }
    hide CrewInv;
  }

  /** The input alone keeps every schedule disciplined: there is one worker, or the
      answers of one worker cannot all wait in the output, and it does not fail first. */
  predicate Protected(c: F.Config) {
    c.parallelism == 1 || (|c.inputs| > c.parallelism && F.Failing(c.inputs, c.parallelism) == 0)
  }

  /** Before all workers are spawned, a last worker alive that leaves has answered all
      sets that were received. */
  lemma LastHasAnswered(c: F.Config, s: F.State, i: nat)
    requires ThreadInv(c, s) && AnswerInv(c, s) && i < |s.workers| && s.workers[i].Leaving? && s.threads == 1
    ensures |s.out| == s.taken
  {
    hide Bookkept, Consistent, Answered, FirstSets, Total;
    forall j | 0 <= j < |s.workers|
      ensures HeldBy(s.workers)[j] == multiset{}
    {
      if j != i { CountOne(Lives(s.workers), i, j); }
    }
    TotalEmpty(HeldBy(s.workers));
    AnsweredSize(s.out);
    FirstSetsSize(s.taken);
    assert multiset{} + Answered(s.out) == Answered(s.out);
  }

  lemma {:induction false} FirstSetsSize(n: nat)
    ensures |FirstSets(n)| == n
  {
    if n > 0 { FirstSetsSize(n - 1); }
  }

  /** A worker that leaves because of an error counts a failure among the received sets. */
  lemma FailureIsCounted(c: F.Config, s: F.State, i: nat)
    requires ErrorInv(c, s) && i < |s.workers| && s.workers[i].Leaving? && s.workers[i].failed
    ensures F.Failing(c.inputs, s.taken) >= 1
  {
    hide F.Failing, Sum;
    SumAtLeast(DoomedOf(c, s.workers), i);
  }

  lemma {:induction false} SumAtLeast(s: seq<nat>, i: nat)
    requires i < |s|
    ensures Sum(s) >= s[i]
  {
    if i < |s| - 1 { SumAtLeast(s[..|s| - 1], i); }
  }

  lemma ProtectedIsDisciplined(c: F.Config, s: F.State, step: F.Step)
    requires Inv(c, s) && Filled(c, s) && Protected(c) && F.Enabled(c, s, step)
    ensures F.Disciplined(s, step)
  {
    hide CrewInv, AnswerInv, F.Failing, Sum, DoomedOf, EndedOf, F.Errors;
    if !F.Disciplined(s, step) && c.parallelism != 1 {
      LastHasAnswered(c, s, step.i);
      if s.workers[step.i].failed {
        FailureIsCounted(c, s, step.i);
        FailingGrows(c.inputs, s.taken, c.parallelism);
      }
    }
  }

  lemma {:induction false} InvOverRun(c: F.Config, s: F.State, steps: seq<F.Step>, disciplined: bool)
    requires Inv(c, s) && Filled(c, s) && F.Possible(c, s, steps, disciplined) && (disciplined || Protected(c))
    ensures Inv(c, F.Run(c, s, steps, disciplined))
    decreases |steps|
  {
    hide CrewInv, Bookkept, AnswerInv, ErrorInv, Filled, Protected, F.Apply, F.Enabled, F.HasRoom, F.Disciplined;
    if steps != [] {
      if !disciplined { ProtectedIsDisciplined(c, s, steps[0]); }
      FilledStep(c, s, steps[0]);
      ThreadStep(c, s, steps[0]);
      AnswerStep(c, s, steps[0]);
      ErrorStep(c, s, steps[0]);
      InvOverRun(c, F.Apply(c, s, steps[0]), steps[1..], disciplined);
    }
  }

  lemma ReachableInv(c: F.Config, s: F.State, disciplined: bool)
    requires F.Reachable(c, s, disciplined) && (disciplined || Protected(c))
    ensures Inv(c, s)
  {
    var steps :| F.Possible(c, F.Init(c), steps, disciplined) && F.Run(c, F.Init(c), steps, disciplined) == s;
    ThreadStart(c);
    AnswerStart(c);
    ErrorStart(c);
    hide *;
    InvOverRun(c, F.Init(c), steps, disciplined);
  }

  lemma {:induction false} AnsweredSize(out: seq<F.Answer>)
    ensures |Answered(out)| == |out|
  {
    if out != [] { AnsweredSize(out[..|out| - 1]); }
  }

  lemma {:induction false} SumAtMost(s: seq<nat>)
    requires forall i :: 0 <= i < |s| ==> s[i] <= 1
    ensures Sum(s) <= |s|
  {
    if s != [] { SumAtMost(s[..|s| - 1]); }
  }

  /** When the output is closed, each received set has exactly one answer, of the kind
      its outcome calls for; its pages are closed exactly after a callback error. At any
      time at most `parallelism` answers are errors of the callback, and nothing is sent
      after the output was closed or closes it again. */
  lemma EachReceivedIsAnsweredOnce(c: F.Config, s: F.State, disciplined: bool)
    requires F.Reachable(c, s, disciplined) && (disciplined || Protected(c))
    ensures s.faults == 0 && F.Errors(s.out) <= c.parallelism
    ensures forall k :: 0 <= k < |s.out| ==>
              GoodAnswer(c, s.out[k]) && (s.out[k].set_ in s.pagesClosed <==> s.out[k].kind.CallbackError?)
    ensures Answered(s.out) <= FirstSets(s.taken)
    ensures s.outClosed ==> Answered(s.out) == FirstSets(s.taken)
  {
    hide F.Reachable, CrewInv, Balanced, Consistent, Answered, F.Errors, Sum, DoomedOf, F.Failing, GoodAnswer;
    ReachableInv(c, s, disciplined);
    SumAtMost(EndedOf(s.workers));
    if s.outClosed { ClosedMeansGone(c, s); }
    AnsweredWithin(s.taken, s.workers, s.out);
    AnswersRight(c, s.workers, s.out, s.pagesClosed);
  }

  lemma AnsweredWithin(taken: nat, ws: seq<F.Worker>, out: seq<F.Answer>)
    requires Balanced(taken, ws, out)
    ensures Answered(out) <= FirstSets(taken)
    ensures (forall i :: 0 <= i < |ws| ==> ws[i].Gone?) ==> Answered(out) == FirstSets(taken)
  {
    if forall i :: 0 <= i < |ws| ==> ws[i].Gone? { TotalEmpty(HeldBy(ws)); }
    hide Total, HeldBy, Answered, FirstSets;
  }

  lemma AnswersRight(c: F.Config, ws: seq<F.Worker>, out: seq<F.Answer>, closed: set<nat>)
    requires Consistent(c, ws, out, closed)
    ensures forall k :: 0 <= k < |out| ==> GoodAnswer(c, out[k]) && (out[k].set_ in closed <==> out[k].kind.CallbackError?)
  {
  }

  lemma ClosedMeansGone(c: F.Config, s: F.State)
    requires ThreadInv(c, s) && s.outClosed
    ensures s.workers != [] && forall i :: 0 <= i < |s.workers| ==> s.workers[i].Gone?
  {
    forall i | 0 <= i < |s.workers|
      ensures s.workers[i].Gone?
    {
      assert Lives(s.workers)[i].Gone?;
    }
  }

  lemma {:induction false} FailingGrows(inputs: seq<F.Input>, m: nat, n: nat)
    requires m <= n <= |inputs|
    ensures F.Failing(inputs, m) <= F.Failing(inputs, n)
  {
    if m < n { FailingGrows(inputs, m, n - 1); }
  }

  /** Fewer callback failures than workers, not counting the last set. */
  predicate FewFailures(c: F.Config) {
    c.inputs == [] || F.Failing(c.inputs, |c.inputs| - 1) < c.parallelism
  }

  /** Then the output is closed only after every set was received and answered. */
  lemma AllAreAnswered(c: F.Config, s: F.State, disciplined: bool)
    requires F.Reachable(c, s, disciplined) && (disciplined || Protected(c)) && s.outClosed && FewFailures(c)
    ensures s.taken == |c.inputs| && Answered(s.out) == FirstSets(|c.inputs|)
  {
    hide F.Reachable, AnswerInv, CrewInv, Answered, F.Failing, F.Errors, Sum, DoomedOf, EndedOf;
    ReachableInv(c, s, disciplined);
    EachReceivedIsAnsweredOnce(c, s, disciplined);
    ClosedMeansGone(c, s);
    if s.taken < |c.inputs| {
      AllFailed(c, s.workers);
      FailingGrows(c.inputs, s.taken, |c.inputs| - 1);
    }
  }

  /** Workers that all left because of an error count one failure each. */
  lemma AllFailed(c: F.Config, ws: seq<F.Worker>)
    requires forall i :: 0 <= i < |ws| ==> ws[i].Gone? && ws[i].failed
    ensures Sum(DoomedOf(c, ws)) == |ws|
  {
    SumConstant(DoomedOf(c, ws), 1);
  }
}
