/** For which documents the pipeline can get stuck: exactly those with more blocks than
    preprocessing workers. */
module PipelineDeadlocks {
  import opened Crew
  import opened PipelineCrews
  import opened PipelineFlow
  import opened PipelineProofs
  import opened PipelineProgress
  import opened PipelineWaiting
  import P = Pipeline

  // ----- When nothing can move

  lemma FavouredMoves(c: P.Config, s: P.State)
    requires !CanMove(c, s)
    ensures Settled(c, s, true)
  {
    hide P.Allowed;
  }

  /** If nobody can move although the request is not over, the first result waits for
      room in a full output. */
  lemma StuckIsClogged(c: P.Config, s: P.State)
    requires ValidConfig(c) && AllBlocks(c) != multiset{} && Inv(c, s) && !Finished(s) && !CanMove(c, s)
    ensures Clogged(c, s)
  {
    FavouredMoves(c, s);
    hide ValidConfig, AllBlocks, Inv, Settled;
    OnlyFirstResultWaits(c, s, true);
    assert P.HasRoom(c, s, P.MainSend) ==> P.Allowed(c, s, P.MainSend, HYPOTHESES);
  }

  /** In a clogged state where nothing favoured is left, nobody can move. */
  lemma CloggedIsStuck(c: P.Config, s: P.State)
    requires Clogged(c, s) && Settled(c, s, true)
    ensures !CanMove(c, s)
  {
    forall step | P.Allowed(c, s, step, HYPOTHESES)
      ensures false
    {
      if step.RSend? {
        assert Favoured(c, s, P.RSend(step.i, true), true);
      } else {
        assert Favoured(c, s, step, true);
      }
    }
  }

  /** With no more blocks than workers some step is always possible. */
  lemma NeverStuck(c: P.Config, s: P.State, rules: P.Rules)
    requires ValidConfig(c) && 0 < |AllBlocks(c)| <= c.parallelism
    requires Careful(rules) && P.Reachable(c, s, rules) && !Finished(s)
    ensures CanMove(c, s)
  {
    hide ValidConfig, AllBlocks, P.Reachable, Inv, CanMove, Clogged;
    ReachableInv(c, s, rules);
    if !CanMove(c, s) {
      StuckIsClogged(c, s);
      CloggedNeedsBlocks(c, s);
    }
  }

  /** With more blocks than workers a schedule that keeps to all hypotheses can reach a
      state where the output is full before the first result is sent, and nobody moves. */
  lemma FirstResultCanBlock(c: P.Config) returns (s: P.State)
    requires ValidConfig(c) && c.blockSize > 0 && |AllBlocks(c)| > c.parallelism
    ensures P.Reachable(c, s, HYPOTHESES) && Inv(c, s) && Clogged(c, s) && Settled(c, s, true)
    ensures !Finished(s) && !CanMove(c, s)
  {
    hide ValidConfig, AllBlocks, P.Reachable, Settled, CanMove;
    s := WaitForFirstResult(c, true);
    SettledShape(c, s, true);
    WaitingIsOpen(c, s);
    hide Inv;
    CloggedIsStuck(c, s);
  }

  lemma WaitingIsOpen(c: P.Config, s: P.State)
    requires Inv(c, s) && AboutToSend(s)
    ensures !s.preprocessed.closed && s.preprocessed.taken == 0 && !Finished(s)
  {
    hide CrewInv, RenderInv, FlowInv, Phase;
  }

  /** No schedule of the pipeline gets stuck if and only if there are no more blocks than
      workers. */
  lemma NeverStuckExactly(c: P.Config)
    requires ValidConfig(c) && c.blockSize > 0 && AllBlocks(c) != multiset{}
    ensures (forall s :: P.Reachable(c, s, HYPOTHESES) && !Finished(s) ==> CanMove(c, s)) <==> |AllBlocks(c)| <= c.parallelism
  {
    hide ValidConfig, AllBlocks, P.Reachable, CanMove, Clogged, Inv, Settled;
    if |AllBlocks(c)| <= c.parallelism {
      forall s | P.Reachable(c, s, HYPOTHESES) && !Finished(s)
        ensures CanMove(c, s)
      {
        NeverStuck(c, s, HYPOTHESES);
      }
    } else {
      var s := FirstResultCanBlock(c);
    }
  }

  // ----- Finishing

  lemma RenderOver(c: P.Config, ws: seq<P.RenderWorker>, counter: int, ch: P.Channel)
    requires RenderInv(c, ws, counter, ch) && ch.closed
    ensures forall i :: 0 <= i < |ws| ==> ws[i].Finished?
  {
    hide RestBags, Total, Bag, AllGood, AllBlocks;
    forall i | 0 <= i < |ws|
      ensures ws[i].Finished?
    {
      assert RLives(ws)[i].Gone?;
    }
  }

  /** Who is left when the request is over: nobody. */
  lemma FinishedShape(c: P.Config, s: P.State)
    requires ValidConfig(c) && Inv(c, s) && Finished(s)
    ensures s.rendered.Drained() && forall i :: 0 <= i < |s.renderers| ==> s.renderers[i].Finished?
    ensures if s.main.Failed? then forall i :: 0 <= i < |s.workers| ==> s.workers[i].Unborn?
            else s.main.Returned? && !s.preprocessed.Pending() && forall i :: 0 <= i < |s.workers| ==> s.workers[i].Gone?
  {
    assert c.parallelism > 0;
    hide ValidConfig, RenderInv, FlowInv, CrewInv, WLives;
    if s.preprocessed.closed {
      ThreadDone(c, s.main, s.workers, s.threads, s.preprocessed.closed, s.rendered.Drained());
    }
    RenderOver(c, s.renderers, s.rendering, s.rendered);
  }

  /** When the request is over nothing is left to do, by any rules. */
  lemma FinishedIsFinal(c: P.Config, s: P.State, step: P.Step)
    requires ValidConfig(c) && Inv(c, s) && Finished(s)
    ensures !P.Enabled(c, s, step)
  {
    hide ValidConfig, Inv, Finished;
    FinishedShape(c, s);
  }

  /** With no more blocks than workers a schedule can go on exactly while the request is
      not over. */
  lemma MovesUntilFinished(c: P.Config, s: P.State, rules: P.Rules)
    requires ValidConfig(c) && 0 < |AllBlocks(c)| <= c.parallelism && Careful(rules) && P.Reachable(c, s, rules)
    ensures Finished(s) <==> !CanMove(c, s)
  {
    hide ValidConfig, AllBlocks, P.Reachable, Inv, Finished, P.RenderersFirst, P.WorkersFirst, P.HasRoom, P.Enabled;
    if Finished(s) {
      ReachableInv(c, s, rules);
      forall step
        ensures !P.Allowed(c, s, step, HYPOTHESES)
      {
        FinishedIsFinal(c, s, step);
      }
    } else {
      NeverStuck(c, s, rules);
    }
  }

  /** Every run can be continued to one that finishes the request. */
  lemma {:induction false} EveryRunCanFinish(c: P.Config, s: P.State) returns (t: P.State)
    requires ValidConfig(c) && 0 < |AllBlocks(c)| <= c.parallelism && P.Reachable(c, s, HYPOTHESES)
    ensures P.Leads(c, s, t, HYPOTHESES) && Finished(t)
  {
    hide ValidConfig, AllBlocks, P.Reachable, Inv, Finished, P.Leads;
    P.Stay(c, s, HYPOTHESES);
    t := FinishFrom(c, s, s);
  }

  lemma {:induction false} FinishFrom(c: P.Config, s: P.State, now: P.State) returns (t: P.State)
    requires ValidConfig(c) && 0 < |AllBlocks(c)| <= c.parallelism
    requires P.Reachable(c, now, HYPOTHESES) && P.Leads(c, s, now, HYPOTHESES)
    ensures P.Leads(c, s, t, HYPOTHESES) && Finished(t)
    decreases Budget(c, now)
  {
    hide ValidConfig, AllBlocks, P.Reachable, Inv, Finished, P.Leads, Cost, P.Apply, P.RenderersFirst, P.WorkersFirst,
         P.HasRoom, P.Enabled;
    if Finished(now) {
      t := now;
    } else {
      NeverStuck(c, now, HYPOTHESES);
      var step :| P.Allowed(c, now, step, HYPOTHESES);
      ReachableInv(c, now, HYPOTHESES);
      InvSized(c, now);
      StepUsesBudget(c, now, step);
      ReachNext(c, now, step, HYPOTHESES);
      P.Next(c, s, now, step, HYPOTHESES);
      t := FinishFrom(c, s, P.Apply(c, now, step));
    }
  }

  lemma StuckStays(c: P.Config, s: P.State, t: P.State)
    requires !CanMove(c, s) && P.Leads(c, s, t, HYPOTHESES)
    ensures t == s
  {
    var steps :| P.Goes(c, s, steps, t, HYPOTHESES);
    hide P.Apply, P.Allowed;
  }

  /** Every run can be continued until the request is over if and only if there are no
      more blocks than workers. */
  lemma FinishesExactly(c: P.Config)
    requires ValidConfig(c) && c.blockSize > 0 && AllBlocks(c) != multiset{}
    ensures (forall s :: P.Reachable(c, s, HYPOTHESES) ==> exists t :: P.Leads(c, s, t, HYPOTHESES) && Finished(t))
            <==> |AllBlocks(c)| <= c.parallelism
  {
    hide ValidConfig, AllBlocks, P.Reachable, CanMove, Clogged, Inv, Settled, Finished, P.Leads;
    if |AllBlocks(c)| <= c.parallelism {
      forall s | P.Reachable(c, s, HYPOTHESES)
        ensures exists t :: P.Leads(c, s, t, HYPOTHESES) && Finished(t)
      {
        var t := EveryRunCanFinish(c, s);
      }
    } else {
      var s := FirstResultCanBlock(c);
      forall t | P.Leads(c, s, t, HYPOTHESES)
        ensures !Finished(t)
      {
        StuckStays(c, s, t);
      }
    }
  }

  // ----- Deadlock, whatever the schedule

  /** With two more blocks than workers a clogged state leaves no step at all. */
  lemma CloggedForGood(c: P.Config, s: P.State, step: P.Step)
    requires ValidConfig(c) && Inv(c, s) && Filled(c, s) && Clogged(c, s) && Settled(c, s, true)
    requires |AllBlocks(c)| > c.parallelism + 1
    ensures !P.Allowed(c, s, step, SOURCE)
  {
    hide ValidConfig, AllBlocks, Settled, Inv, P.OutputHasRoom, P.ReceiverWaits;
    WaitingIsOpen(c, s);
    SettledShape(c, s, true);
    WorkersWait(c, s, true);
    if P.Allowed(c, s, step, SOURCE) {
      CloggedIsStuck(c, s);
      assert !P.Allowed(c, s, step, HYPOTHESES);
      UndisciplinedStep(c, s, step);
      if step.Close? { ClosingIsLast(c, s, step.i); }
    }
  }

  /** A step that only the hypotheses forbid here closes the output. */
  lemma UndisciplinedStep(c: P.Config, s: P.State, step: P.Step)
    requires Inv(c, s) && AboutToSend(s) && Settled(c, s, true)
    requires P.Allowed(c, s, step, SOURCE) && !P.Allowed(c, s, step, HYPOTHESES)
    ensures step.Close?
  {
    hide RenderInv, FlowInv, CrewInv, WLives, P.HasRoom;
    if step.RLower? {
      var late :| 0 <= late < |s.renderers| && s.renderers[late].NotStarted?;
      StarterMoves(c, s, late);
    }
  }

  lemma StarterMoves(c: P.Config, s: P.State, late: nat)
    requires late < |s.renderers| && s.renderers[late].NotStarted?
    ensures !Settled(c, s, true)
  {
    assert Favoured(c, s, P.RStart(late), true);
  }

  /** When a worker is about to close the output, all blocks but the first have their
      result in it. */
  lemma ClosingIsLast(c: P.Config, s: P.State, i: nat)
    requires Inv(c, s) && s.main.Spawning? && i < |s.workers| && s.workers[i].Closing?
    ensures |AllBlocks(c)| == 1 + |s.preprocessed.hist|
  {
    OthersGone(s.workers, s.threads, s.preprocessed.closed, i);
    BlocksUnderWay(c, s);
    assert Ended(s.workers[i]);
    hide RenderInv, FlowInv, CrewInv, AllBlocks, Phase;
  }

  lemma OthersGone(ws: seq<P.Worker>, threads: int, closed: bool, i: nat)
    requires CrewInv(WLives(ws), threads, closed) && i < |ws| && ws[i].Closing?
    ensures forall j :: 0 <= j < |ws| && j != i ==> ws[j].Gone?
  {
    forall j | 0 <= j < |ws| && j != i
      ensures ws[j].Gone?
    {
      assert WLives(ws)[i].Closing? && WLives(ws)[j].Gone?;
    }
  }

  /** A schedule that keeps to the hypotheses can reach a state from which no step at all
      is possible, and the request is not over, if and only if there are at least two
      more blocks than workers. (With one more, the last worker can still close the
      output, before the first result is sent.) */
  lemma DeadlocksExactly(c: P.Config)
    requires ValidConfig(c) && c.blockSize > 0 && AllBlocks(c) != multiset{}
    ensures (exists s :: P.Reachable(c, s, HYPOTHESES) && !Finished(s) && forall step :: !P.Allowed(c, s, step, SOURCE))
            <==> |AllBlocks(c)| > c.parallelism + 1
  {
    hide ValidConfig, AllBlocks, P.Reachable, P.Allowed, Clogged, Inv, Settled, Finished, Filled;
    if |AllBlocks(c)| > c.parallelism + 1 {
      var s := FirstResultCanBlock(c);
      ReachableFilled(c, s, HYPOTHESES);
      forall step
        ensures !P.Allowed(c, s, step, SOURCE)
      {
        CloggedForGood(c, s, step);
      }
    } else {
      forall s | P.Reachable(c, s, HYPOTHESES) && !Finished(s)
        ensures exists step :: P.Allowed(c, s, step, SOURCE)
      {
        SomethingMoves(c, s);
      }
    }
  }

  lemma SomethingMoves(c: P.Config, s: P.State)
    requires ValidConfig(c) && 0 < |AllBlocks(c)| <= c.parallelism + 1
    requires P.Reachable(c, s, HYPOTHESES) && !Finished(s)
    ensures exists step :: P.Allowed(c, s, step, SOURCE)
  {
    hide ValidConfig, AllBlocks, P.Reachable, Inv, Finished, P.RenderersFirst, P.WorkersFirst, Settled, P.OutputHasRoom;
    ReachableInv(c, s, HYPOTHESES);
    if CanMove(c, s) {
      var step :| P.Allowed(c, s, step, HYPOTHESES);
      assert P.Allowed(c, s, step, SOURCE);
    } else {
      StuckIsClogged(c, s);
      FavouredMoves(c, s);
      FullOutput(c, s);
      SettledShape(c, s, true);
      var i :| 0 <= i < |s.workers| && s.workers[i].Closing?;
      assert P.Allowed(c, s, P.Close(i), SOURCE);
    }
  }

  lemma FullOutput(c: P.Config, s: P.State)
    requires Inv(c, s) && Clogged(c, s)
    ensures |s.preprocessed.hist| >= c.parallelism
  {
    WaitingIsOpen(c, s);
    hide Inv;
  }
}
