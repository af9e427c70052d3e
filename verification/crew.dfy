/** A crew of goroutines that share an atomic counter: each raises it once, lowers
    it when it leaves, and the one that brings it to zero closes the output.

    The pattern is used by `RenderPageBlocks`, `PreprocessStream` and `ForEach`. */
module Crew {

  datatype Life = Unborn | Alive | Closing | Gone

  function AliveCount(ls: seq<Life>): nat {
    if ls == [] then 0 else AliveCount(ls[..|ls| - 1]) + if ls[|ls| - 1].Alive? then 1 else 0
  }

  predicate AllRaised(ls: seq<Life>) {
    forall i :: 0 <= i < |ls| ==> !ls[i].Unborn?
  }

  predicate AllGone(ls: seq<Life>) {
    forall i :: 0 <= i < |ls| ==> ls[i].Gone?
  }

  /** What the counter and the output channel mean when nobody brings the counter to
      zero before everybody has raised it. */
  ghost predicate CrewInv(ls: seq<Life>, counter: int, closed: bool) {
    && counter == AliveCount(ls)
    && ((exists i :: 0 <= i < |ls| && ls[i].Closing?) ==> AllRaised(ls))
    && (forall i, j :: 0 <= i < |ls| && 0 <= j < |ls| && i != j && ls[i].Closing? ==> ls[j].Gone?)
    && (closed <==> ls != [] && AllGone(ls))
  }

  lemma {:induction false} CountUpdate(ls: seq<Life>, i: nat, l: Life)
    requires i < |ls|
    ensures AliveCount(ls[i := l])
            == AliveCount(ls) - (if ls[i].Alive? then 1 else 0) + (if l.Alive? then 1 else 0)
  {
    var n := |ls| - 1;
    if i < n {
      CountUpdate(ls[..n], i, l);
      assert ls[i := l][..n] == ls[..n][i := l];
    } else {
      assert ls[i := l][..n] == ls[..n];
    }
  }

  lemma {:induction false} CountZero(ls: seq<Life>, i: nat)
    requires i < |ls| && AliveCount(ls) == 0
    ensures !ls[i].Alive?
  {
    if i < |ls| - 1 { CountZero(ls[..|ls| - 1], i); }
  }

  lemma CountOne(ls: seq<Life>, i: nat, j: nat)
    requires AliveCount(ls) == 1 && i < |ls| && j < |ls| && i != j && ls[i].Alive?
    ensures !ls[j].Alive?
  {
    CountUpdate(ls, i, Gone);
    CountZero(ls[i := Gone], j);
  }

  lemma {:induction false} CountNone(ls: seq<Life>)
    requires forall i :: 0 <= i < |ls| ==> !ls[i].Alive?
    ensures AliveCount(ls) == 0
  {
    if ls != [] { CountNone(ls[..|ls| - 1]); }
  }

  lemma Start(ls: seq<Life>)
    requires forall i :: 0 <= i < |ls| ==> ls[i].Unborn?
    ensures CrewInv(ls, 0, false)
  {
    CountNone(ls);
  }

  lemma Raise(ls: seq<Life>, counter: int, closed: bool, i: nat)
    requires CrewInv(ls, counter, closed) && i < |ls| && ls[i].Unborn?
    ensures CrewInv(ls[i := Alive], counter + 1, closed) && !closed
  {
    var ls' := ls[i := Alive];
    CountUpdate(ls, i, Alive);
    assert !AllRaised(ls) && ls'[i].Alive?;
    assert forall j :: 0 <= j < |ls| ==> ls'[j] == if j == i then Alive else ls[j];
  }

  /** The state of a worker after it lowered the counter to `counter`. */
  function AfterLower(counter: int): Life {
    if counter == 0 then Closing else Gone
  }

  lemma Lower(ls: seq<Life>, counter: int, closed: bool, i: nat)
    requires CrewInv(ls, counter, closed) && i < |ls| && ls[i].Alive? && (counter == 1 ==> AllRaised(ls))
    ensures CrewInv(ls[i := AfterLower(counter - 1)], counter - 1, closed) && !closed
  {
    var ls' := ls[i := AfterLower(counter - 1)];
    CountUpdate(ls, i, AfterLower(counter - 1));
    assert (counter == 1 ==> AllRaised(ls')) && !closed;
    forall j | 0 <= j < |ls| && j != i
      ensures ls'[j] == ls[j] && !ls[j].Closing? && (counter == 1 ==> ls[j].Gone?)
    {
      assert ls[i].Alive?;
      if counter == 1 { CountZero(ls', j); }
    }
    assert ls'[i] == AfterLower(counter - 1);
    if counter != 1 && AllGone(ls') {
      CountNone(ls');
    }
  }

  lemma Close(ls: seq<Life>, counter: int, closed: bool, i: nat)
    requires CrewInv(ls, counter, closed) && i < |ls| && ls[i].Closing?
    ensures CrewInv(ls[i := Gone], counter, true) && !closed && AllGone(ls[i := Gone])
  {
    CountUpdate(ls, i, Gone);
  }

  /** A worker that is not gone finds the channel open. */
  lemma StillOpen(ls: seq<Life>, counter: int, closed: bool, i: nat)
    requires CrewInv(ls, counter, closed) && i < |ls| && !ls[i].Gone?
    ensures !closed
  {
  }

  /** While the channel is open somebody is left to close it. */
  lemma SomeoneLeft(ls: seq<Life>, counter: int, closed: bool) returns (i: nat)
    requires CrewInv(ls, counter, closed) && ls != [] && !closed
    ensures i < |ls| && !ls[i].Gone?
  {
    i :| 0 <= i < |ls| && !ls[i].Gone?;
  }

  // ----- Adding up what the members of a crew hold

  function Total(bags: seq<multiset<nat>>): multiset<nat> {
    if bags == [] then multiset{} else Total(bags[..|bags| - 1]) + bags[|bags| - 1]
  }

  lemma {:induction false} TotalUpdate(bags: seq<multiset<nat>>, i: nat, b: multiset<nat>)
    requires i < |bags|
    ensures Total(bags[i := b]) + bags[i] == Total(bags) + b
  {
    var n := |bags| - 1;
    if i < n {
      TotalUpdate(bags[..n], i, b);
      assert bags[i := b][..n] == bags[..n][i := b];
      Reassociate(Total(bags[..n][i := b]), bags[i], Total(bags[..n]), b, bags[n]);
    } else {
      assert bags[i := b][..n] == bags[..n];
      assert Total(bags[..n]) + b + bags[n] == Total(bags[..n]) + bags[n] + b;
    }
  }

  lemma TotalGain(bags: seq<multiset<nat>>, i: nat, b: multiset<nat>)
    requires i < |bags| && bags[i] == multiset{}
    ensures Total(bags[i := b]) == Total(bags) + b
  {
    TotalUpdate(bags, i, b);
    hide Total;
    assert Total(bags[i := b]) + multiset{} == Total(bags[i := b]);
  }

  lemma TotalLoss(bags: seq<multiset<nat>>, i: nat)
    requires i < |bags|
    ensures Total(bags[i := multiset{}]) + bags[i] == Total(bags)
  {
    TotalUpdate(bags, i, multiset{});
    hide Total;
    assert Total(bags) + multiset{} == Total(bags);
  }

  lemma Reassociate(x: multiset<nat>, a: multiset<nat>, y: multiset<nat>, b: multiset<nat>, c: multiset<nat>)
    requires x + a == y + b
    ensures x + c + a == y + c + b
  {
    assert x + c + a == (x + a) + c;
    assert y + c + b == (y + b) + c;
  }

  lemma {:induction false} TotalEmpty(bags: seq<multiset<nat>>)
    requires forall i :: 0 <= i < |bags| ==> bags[i] == multiset{}
    ensures Total(bags) == multiset{}
  {
    if bags != [] { TotalEmpty(bags[..|bags| - 1]); }
  }

  lemma {:induction false} TotalContains(bags: seq<multiset<nat>>, i: nat)
    requires i < |bags|
    ensures bags[i] <= Total(bags)
  {
    if i < |bags| - 1 { TotalContains(bags[..|bags| - 1], i); }
  }
}
