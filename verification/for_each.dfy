/** `ForEach` (internal/omr/stream.go) as a step relation: workers that share a
    counter, run a callback on each received set, and leave when it fails.

    A set is named by its position in the input. What the environment will send is
    fixed up front, with the outcome of the callback on it. */
module ForEach {

  /** A set that already carries an error, or whose callback fails, or neither. */
  datatype Input = Erroneous | CallbackFails | CallbackSucceeds

  /** Passed down, answered by the callback, or by its error (the pages are closed). */
  datatype Kind = PassedDown | Done | CallbackError

  datatype Answer = Answer(set_: nat, kind: Kind)

  /** `failed` records whether a worker leaves because its callback failed. */
  datatype Worker =
    | Unborn | Idle | Calling(j: nat) | Sending(a: Answer)
    | Leaving(failed: bool) | Closing(failed: bool) | Gone(failed: bool)

  datatype Config = Config(inputs: seq<Input>, parallelism: nat)

  datatype State = State(
    provided: nat, taken: nat, inputClosed: bool,
    spawned: nat, workers: seq<Worker>, threads: int,
    out: seq<Answer>, outClosed: bool, pagesClosed: set<nat>, faults: nat)

  datatype Step =
    | Provide | CloseInput | Spawn | Receive(i: nat) | Call(i: nat) | Send(i: nat)
    | SeeEnd(i: nat) | Lower(i: nat) | Close(i: nat)

  function Init(c: Config): State {
    State(0, 0, false, 0, seq(c.parallelism, _ => Unborn), 0, [], false, {}, 0)
  }

  predicate Enabled(c: Config, s: State, step: Step) {
    match step
    case Provide => s.provided < |c.inputs| && !s.inputClosed
    case CloseInput => s.provided >= |c.inputs| && !s.inputClosed
    case Spawn => s.spawned < |s.workers| && s.workers[s.spawned].Unborn?
    case Receive(i) => i < |s.workers| && s.workers[i].Idle? && s.taken < s.provided && s.taken < |c.inputs|
    case Call(i) => i < |s.workers| && s.workers[i].Calling? && s.workers[i].j < |c.inputs|
    case Send(i) => i < |s.workers| && s.workers[i].Sending?
    case SeeEnd(i) => i < |s.workers| && s.workers[i].Idle? && s.inputClosed && s.taken >= s.provided
    case Lower(i) => i < |s.workers| && s.workers[i].Leaving?
    case Close(i) => i < |s.workers| && s.workers[i].Closing?
  }

  function Fault(closed: bool): nat { if closed then 1 else 0 }

  function Apply(c: Config, s: State, step: Step): State
    requires Enabled(c, s, step)
  {
    match step
    case Provide => s.(provided := s.provided + 1)
    case CloseInput => s.(inputClosed := true)
    case Spawn => s.(workers := s.workers[s.spawned := Idle], spawned := s.spawned + 1, threads := s.threads + 1)
    case Receive(i) =>
      var w := if c.inputs[s.taken].Erroneous? then Sending(Answer(s.taken, PassedDown)) else Calling(s.taken);
      s.(workers := s.workers[i := w], taken := s.taken + 1)
    case Call(i) =>
      var j := s.workers[i].j;
      if c.inputs[j].CallbackFails? then
        s.(workers := s.workers[i := Sending(Answer(j, CallbackError))], pagesClosed := s.pagesClosed + {j})
      else
        s.(workers := s.workers[i := Sending(Answer(j, Done))])
    case Send(i) =>
      var a := s.workers[i].a;
      s.(workers := s.workers[i := if a.kind.CallbackError? then Leaving(true) else Idle],
         out := s.out + [a], faults := s.faults + Fault(s.outClosed))
    case SeeEnd(i) => s.(workers := s.workers[i := Leaving(false)])
    case Lower(i) =>
      var failed := s.workers[i].failed;
      s.(workers := s.workers[i := if s.threads - 1 == 0 then Closing(failed) else Gone(failed)], threads := s.threads - 1)
    case Close(i) =>
      s.(workers := s.workers[i := Gone(s.workers[i].failed)], outClosed := true, faults := s.faults + Fault(s.outClosed))
  }

  /** The output holds as many answers as there are workers, and the caller gets it only
      when all of them were spawned; from then on it may receive at any time. A send on
      the closed output does not wait. */
  predicate HasRoom(c: Config, s: State, step: Step) {
    step.Send? ==> s.outClosed || s.spawned >= |s.workers| || |s.out| < c.parallelism
  }

  /** No worker brings the counter to zero before all have raised it. */
  predicate Disciplined(s: State, step: Step) {
    step.Lower? && s.threads == 1 ==> s.spawned >= |s.workers|
  }

  predicate Allowed(c: Config, s: State, step: Step, disciplined: bool) {
    Enabled(c, s, step) && HasRoom(c, s, step) && (disciplined ==> Disciplined(s, step))
  }

  /** A run, disciplined or not. */
  predicate Possible(c: Config, s: State, steps: seq<Step>, disciplined: bool)
    decreases |steps|
  {
    steps == [] || (Allowed(c, s, steps[0], disciplined) && Possible(c, Apply(c, s, steps[0]), steps[1..], disciplined))
  }

  function Run(c: Config, s: State, steps: seq<Step>, disciplined: bool): State
    requires Possible(c, s, steps, disciplined)
    decreases |steps|
  {
    if steps == [] then s else Run(c, Apply(c, s, steps[0]), steps[1..], disciplined)
  }

  ghost predicate Reachable(c: Config, s: State, disciplined: bool) {
    exists steps: seq<Step> :: Possible(c, Init(c), steps, disciplined) && Run(c, Init(c), steps, disciplined) == s
  }

  /** How many of the first `n` sets make the callback fail. */
  function Failing(inputs: seq<Input>, n: nat): nat
    requires n <= |inputs|
  {
    if n == 0 then 0 else Failing(inputs, n - 1) + if inputs[n - 1].CallbackFails? then 1 else 0
  }

  /** How many answers are callback errors. */
  function Errors(out: seq<Answer>): nat {
    if out == [] then 0 else Errors(out[..|out| - 1]) + if out[|out| - 1].kind.CallbackError? then 1 else 0
  }
}
