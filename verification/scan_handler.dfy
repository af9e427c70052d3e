/** The loop of `PostScanPdf` (internal/server/handler/scan.go) that turns the
    preprocessed exams into a response, `NewScanResult` (internal/server/dto/
    outgoing.go), and what it answers for the exams of one PDF.

    Saving a scan and the text of an error are parameters. */
module ScanHandler {
  import opened Crew
  import opened Arithmetic
  import opened Omr
  import opened PipelineCrews
  import opened PipelineProofs
  import opened Sequences
  import P = Pipeline
  import Pdf

  /** `metadata` is absent for the nil map; for an exam it names its block. */
  datatype ScanError = ScanError(metadata: Option<nat>, debug: string)

  datatype ScanResult = ScanResult(scanIds: seq<string>, errors: seq<ScanError>)

  const ZERO_ERROR := ScanError(None, "")

  datatype Saving = Saved(id: string) | Unsaved(debug: string)

  /** A scan's identifier is never blank. */
  ghost predicate SavesUnderIds(save: P.PageSet -> Saving) {
    forall x :: save(x).Saved? ==> save(x).id != ""
  }

  predicate IsId(id: string) { id != "" }

  predicate IsError(e: ScanError) { e.metadata.Some? || e.debug != "" }

  /** Drops the blank entries. */
  method NewScanResult(scanIds: seq<string>, errors: seq<ScanError>) returns (r: ScanResult)
    ensures r == ScanResult(Filter(IsId, scanIds), Filter(IsError, errors))
  {
    var ids: seq<string>, errs: seq<ScanError> := [], [];
    for i := 0 to |scanIds|
      invariant ids == Filter(IsId, scanIds[..i])
    {
      assert scanIds[..i + 1][..i] == scanIds[..i];
      if scanIds[i] != "" { ids := ids + [scanIds[i]]; }
    }
    for i := 0 to |errors|
      invariant errs == Filter(IsError, errors[..i])
    {
      assert errors[..i + 1][..i] == errors[..i];
      if errors[i].metadata.Some? || errors[i].debug != "" { errs := errs + [errors[i]]; }
    }
    assert scanIds[..|scanIds|] == scanIds && errors[..|errors|] == errors;
    r := ScanResult(ids, errs);
  }

  /** The exam was preprocessed and saved. */
  predicate Accepted(save: P.PageSet -> Saving, x: P.PageSet) { !x.failed && save(x).Saved? }

  /** What the loop writes to the slot of an exam in `scanIds` and in `errors`. */
  function IdSlot(save: P.PageSet -> Saving, x: P.PageSet): string {
    if Accepted(save, x) then save(x).id else ""
  }

  function ErrorSlot(save: P.PageSet -> Saving, text: P.PageSet -> string, x: P.PageSet): ScanError {
    if Accepted(save, x) then ZERO_ERROR
    else ScanError(Some(x.id), if x.failed then text(x) else save(x).debug)
  }

  /** The identifiers of the accepted exams, and the errors of the others, in the
      order in which the exams arrive. */
  function SavedIds(save: P.PageSet -> Saving, exams: seq<P.PageSet>): seq<string> {
    if exams == [] then []
    else
      var init, last := exams[..|exams| - 1], exams[|exams| - 1];
      SavedIds(save, init) + if Accepted(save, last) then [save(last).id] else []
  }

  function Refusals(save: P.PageSet -> Saving, text: P.PageSet -> string, exams: seq<P.PageSet>): seq<ScanError> {
    if exams == [] then []
    else
      var init, last := exams[..|exams| - 1], exams[|exams| - 1];
      Refusals(save, text, init) + if Accepted(save, last) then [] else [ErrorSlot(save, text, last)]
  }

  /** One more exam: an error that names its block, with the text of its own error, or of
      the failed save; or the identifier it was saved under. */
  lemma AnswerGrows(save: P.PageSet -> Saving, text: P.PageSet -> string, exams: seq<P.PageSet>, x: P.PageSet)
    ensures SavedIds(save, []) == [] && Refusals(save, text, []) == []
    ensures Refusals(save, text, exams + [x])
            == Refusals(save, text, exams)
               + if x.failed then [ScanError(Some(x.id), text(x))]
                 else match save(x) { case Saved(_) => [] case Unsaved(debug) => [ScanError(Some(x.id), debug)] }
    ensures SavedIds(save, exams + [x])
            == SavedIds(save, exams)
               + if x.failed then [] else match save(x) { case Saved(id) => [id] case Unsaved(_) => [] }
  {
    assert (exams + [x])[..|exams|] == exams;
  }

  function IdSlots(save: P.PageSet -> Saving, exams: seq<P.PageSet>, n: nat): seq<string> {
    seq(n, i requires 0 <= i < n => if i < |exams| then IdSlot(save, exams[i]) else "")
  }

  function ErrorSlots(save: P.PageSet -> Saving, text: P.PageSet -> string, exams: seq<P.PageSet>,
                      n: nat): seq<ScanError> {
    seq(n, i requires 0 <= i < n => if i < |exams| then ErrorSlot(save, text, exams[i]) else ZERO_ERROR)
  }

  /** The exams with a slot among the first n - 1. */
  function Earlier(exams: seq<P.PageSet>, n: nat): seq<P.PageSet>
    requires |exams| <= n && n > 0
  {
    if |exams| < n then exams else exams[..n - 1]
  }

  lemma IdSlotsGrow(save: P.PageSet -> Saving, exams: seq<P.PageSet>, n: nat)
    requires |exams| <= n && n > 0
    ensures IdSlots(save, exams, n) == IdSlots(save, Earlier(exams, n), n - 1)
                                       + [if |exams| < n then "" else IdSlot(save, exams[n - 1])]
  {
    hide IdSlot;
  }

  lemma {:induction false} SlotsToIds(save: P.PageSet -> Saving, exams: seq<P.PageSet>, n: nat)
    requires |exams| <= n && SavesUnderIds(save)
    ensures Filter(IsId, IdSlots(save, exams, n)) == SavedIds(save, exams)
    decreases n
  {
    if n > 0 {
      hide Filter, IdSlots;
      IdSlotsGrow(save, exams, n);
      SlotsToIds(save, Earlier(exams, n), n - 1);
      FilterPush(IsId, IdSlots(save, Earlier(exams, n), n - 1), if |exams| < n then "" else IdSlot(save, exams[n - 1]));
    }
  }

  lemma ErrorSlotsGrow(save: P.PageSet -> Saving, text: P.PageSet -> string, exams: seq<P.PageSet>, n: nat)
    requires |exams| <= n && n > 0
    ensures ErrorSlots(save, text, exams, n) == ErrorSlots(save, text, Earlier(exams, n), n - 1)
                                                + [if |exams| < n then ZERO_ERROR else ErrorSlot(save, text, exams[n - 1])]
  {
    hide ErrorSlot;
  }

  lemma {:induction false} SlotsToErrors(save: P.PageSet -> Saving, text: P.PageSet -> string, exams: seq<P.PageSet>,
                                         n: nat)
    requires |exams| <= n
    ensures Filter(IsError, ErrorSlots(save, text, exams, n)) == Refusals(save, text, exams)
    decreases n
  {
    if n > 0 {
      hide Filter, ErrorSlots;
      ErrorSlotsGrow(save, text, exams, n);
      SlotsToErrors(save, text, Earlier(exams, n), n - 1);
      FilterPush(IsError, ErrorSlots(save, text, Earlier(exams, n), n - 1),
                 if |exams| < n then ZERO_ERROR else ErrorSlot(save, text, exams[n - 1]));
    }
  }

  /** The consumer loop: `exams` is what it receives before the channel closes. Each
      exam takes the next index of two arrays of length `nExams`. */
  method CollectResults(exams: seq<P.PageSet>, nExams: nat, save: P.PageSet -> Saving, text: P.PageSet -> string)
    returns (r: ScanResult)
    requires |exams| <= nExams && SavesUnderIds(save)
    ensures r.scanIds == SavedIds(save, exams)
    ensures r.errors == Refusals(save, text, exams)
  {
    var scanIds := new string[nExams](_ => "");
    var errors := new ScanError[nExams](_ => ZERO_ERROR);
    var examsRendered := 0;
    while examsRendered < |exams|
      invariant examsRendered <= |exams|
      invariant forall i :: 0 <= i < nExams ==> scanIds[i] == if i < examsRendered then IdSlot(save, exams[i]) else ""
      invariant forall i :: 0 <= i < nExams ==>
                  errors[i] == if i < examsRendered then ErrorSlot(save, text, exams[i]) else ZERO_ERROR
    {
      var exam, idx := exams[examsRendered], examsRendered;
      examsRendered := examsRendered + 1;
      if exam.failed {
        errors[idx] := ScanError(Some(exam.id), text(exam));
        continue;
      }
      var saving := save(exam);
      if saving.Unsaved? {
        errors[idx] := ScanError(Some(exam.id), saving.debug);
        continue;
      }
      scanIds[idx] := saving.id;
    }
    assert scanIds[..] == IdSlots(save, exams, nExams);
    assert errors[..] == ErrorSlots(save, text, exams, nExams);
    SlotsToIds(save, exams, nExams);
    SlotsToErrors(save, text, exams, nExams);
    r := NewScanResult(scanIds[..], errors[..]);
  }

  // ----- The answer to one PDF

  /** The blocks of the accepted exams, and those the errors name. */
  function AcceptedBlocks(save: P.PageSet -> Saving, exams: seq<P.PageSet>): multiset<nat> {
    if exams == [] then multiset{}
    else
      var init, last := exams[..|exams| - 1], exams[|exams| - 1];
      AcceptedBlocks(save, init) + if Accepted(save, last) then multiset{last.id} else multiset{}
  }

  function RefusedBlocks(errors: seq<ScanError>): multiset<nat> {
    if errors == [] then multiset{}
    else
      var last := errors[|errors| - 1];
      RefusedBlocks(errors[..|errors| - 1]) + if last.metadata.Some? then multiset{last.metadata.value} else multiset{}
  }

  lemma RefusedPush(errors: seq<ScanError>, e: ScanError)
    requires e.metadata.Some?
    ensures RefusedBlocks(errors + [e]) == RefusedBlocks(errors) + multiset{e.metadata.value}
  {
    assert (errors + [e])[..|errors|] == errors;
  }

  lemma Reorder(a: multiset<nat>, r: multiset<nat>, b: multiset<nat>)
    ensures a + b + r == a + r + b && a + (r + b) == a + r + b
  {
  }

  lemma {:induction false} EachExamOnce(save: P.PageSet -> Saving, text: P.PageSet -> string, exams: seq<P.PageSet>)
    ensures |SavedIds(save, exams)| + |Refusals(save, text, exams)| == |exams|
    ensures AcceptedBlocks(save, exams) + RefusedBlocks(Refusals(save, text, exams)) == Bag(exams)
  {
    if exams == [] {
      assert Ids(exams) == [];
    } else {
      var init, last := exams[..|exams| - 1], exams[|exams| - 1];
      assert exams == init + [last];
      EachExamOnce(save, text, init);
      BagPush(init, last);
      hide Bag;
      var accepted, refused := AcceptedBlocks(save, init), RefusedBlocks(Refusals(save, text, init));
      if Accepted(save, last) {
        assert AcceptedBlocks(save, exams) == accepted + multiset{last.id};
        hide AcceptedBlocks, RefusedBlocks;
        assert Refusals(save, text, exams) == Refusals(save, text, init);
        Reorder(accepted, refused, multiset{last.id});
      } else {
        RefusedPush(Refusals(save, text, init), ErrorSlot(save, text, last));
        assert AcceptedBlocks(save, exams) == accepted;
        hide AcceptedBlocks, RefusedBlocks;
        Reorder(accepted, refused, multiset{last.id});
      }
    }
  }

  /** Over a whole request that is not refused, every block of the PDF is answered
      exactly once, by the identifier of a saved scan or by an error that names it. */
  lemma EveryBlockIsAnswered(c: P.Config, s: P.State, rules: P.Rules, save: P.PageSet -> Saving, text: P.PageSet -> string)
    requires ValidConfig(c) && Careful(rules) && P.Reachable(c, s, rules) && s.preprocessed.closed
    ensures var exams := s.preprocessed.hist; var errors := Refusals(save, text, exams);
            && |exams| == |AllBlocks(c)|
            && |SavedIds(save, exams)| + |errors| == |AllBlocks(c)|
            && AcceptedBlocks(save, exams) + RefusedBlocks(errors) == AllBlocks(c)
  {
    hide ValidConfig, P.Reachable, AllBlocks, Bag, SavedIds, Refusals, AcceptedBlocks, RefusedBlocks;
    OneResultPerBlock(c, s, rules);
    EachExamOnce(save, text, s.preprocessed.hist);
    BagSize(s.preprocessed.hist);
  }

  // ----- The blocks of a partitioned document

  /** What each renderer of `RenderPageBlocks` is given: the first pages of its blocks. */
  function FirstPages(blocks: seq<Pdf.Block>): (r: seq<nat>)
    ensures |r| == |blocks| && forall j :: 0 <= j < |blocks| ==> r[j] == blocks[j].from
  {
    seq(|blocks|, j requires 0 <= j < |blocks| => blocks[j].from)
  }

  function Documents(r: seq<Pdf.Subset>): (docs: seq<seq<nat>>)
    ensures |docs| == |r| && forall i :: 0 <= i < |r| ==> docs[i] == FirstPages(r[i].blocks)
  {
    seq(|r|, i requires 0 <= i < |r| => FirstPages(r[i].blocks))
  }

  /** Increasing numbers from `lo` up to `hi` form a multiset without repetitions. */
  ghost predicate OnceWithin(b: multiset<nat>, lo: int, hi: int) {
    forall id: nat :: b[id] <= 1 && (id in b ==> lo <= id <= hi)
  }

  lemma JoinOnce(a: multiset<nat>, b: multiset<nat>, lo: int, mid: int, hi: int)
    requires OnceWithin(a, lo, mid) && OnceWithin(b, mid + 1, hi) && lo <= mid + 1 && mid <= hi
    ensures OnceWithin(a + b, lo, hi)
  {
    forall id: nat
      ensures (a + b)[id] <= 1 && (id in a + b ==> lo <= id <= hi)
    {
      if id in a && id in b { assert false; }
    }
  }

  lemma WithoutLast(s: Pdf.Subset, blockSize: nat)
    requires Pdf.WholeBlocks(s, blockSize) && s.blocks != []
    ensures var n := |s.blocks| - 1;
            Pdf.WholeBlocks(Pdf.Subset(s.from, s.blocks[n].from - 1, s.blocks[..n]), blockSize)
  {
  }

  /** A subset names the first page of each of its blocks once, between its own
      first and last page. */
  lemma {:induction false} SubsetOnce(s: Pdf.Subset, blockSize: nat)
    requires Pdf.WholeBlocks(s, blockSize) && blockSize > 0
    ensures OnceWithin(multiset(FirstPages(s.blocks)), s.from, s.thru) && s.thru >= s.from - 1
    decreases |s.blocks|
  {
    if s.blocks != [] {
      var n := |s.blocks| - 1;
      var end := s.blocks[n];
      var init := Pdf.Subset(s.from, end.from - 1, s.blocks[..n]);
      assert end.thru == s.thru == end.from + blockSize - 1;
      WithoutLast(s, blockSize);
      hide Pdf.WholeBlocks;
      SubsetOnce(init, blockSize);
      assert FirstPages(s.blocks) == FirstPages(init.blocks) + [end.from];
      JoinOnce(multiset(FirstPages(init.blocks)), multiset{end.from}, s.from, init.thru, s.thru);
    }
  }

  lemma WithoutLastSubset(r: seq<Pdf.Subset>, n: nat, blockSize: nat)
    requires Pdf.Tiles(r, n, blockSize) && blockSize > 0 && r != []
    ensures var k := |r| - 1;
            && Pdf.WholeBlocks(r[k], blockSize) && 1 <= r[k].from <= r[k].thru == n
            && Pdf.Tiles(r[..k], r[k].from - 1, blockSize)
  {
    Pdf.SubsetWithin(r, n, blockSize, |r| - 1);
    if |r| > 1 { Pdf.SubsetWithin(r, n, blockSize, |r| - 2); }
    hide Pdf.WholeBlocks;
  }

  lemma {:induction false} SubsetsOnce(r: seq<Pdf.Subset>, n: nat, blockSize: nat)
    requires Pdf.Tiles(r, n, blockSize) && blockSize > 0
    ensures OnceWithin(Total(DocBags(Documents(r))), 1, n)
    decreases |r|
  {
    hide Pdf.Tiles, Pdf.WholeBlocks, FirstPages, Documents, DocBags, Total, OnceWithin;
    if r == [] {
      NothingOnce(n);
    } else {
      var k := |r| - 1;
      var init, end := r[..k], r[k];
      WithoutLastSubset(r, n, blockSize);
      SubsetOnce(end, blockSize);
      TotalOfLast(r);
      SubsetsOnce(init, end.from - 1, blockSize);
      JoinOnce(Total(DocBags(Documents(init))), multiset(FirstPages(end.blocks)), 1, end.from - 1, n);
    }
  }

  lemma NothingOnce(n: nat)
    ensures OnceWithin(Total(DocBags(Documents([]))), 1, n)
  {
    assert Total(DocBags(Documents([]))) == multiset{};
  }

  lemma TotalOfLast(r: seq<Pdf.Subset>)
    requires r != []
    ensures var k := |r| - 1;
            Total(DocBags(Documents(r))) == Total(DocBags(Documents(r[..k]))) + multiset(FirstPages(r[k].blocks))
  {
    var k := |r| - 1;
    assert DocBags(Documents(r))[..k] == DocBags(Documents(r[..k]));
    assert DocBags(Documents(r))[k] == multiset(FirstPages(r[k].blocks));
  }

  lemma {:induction false} BlocksCounted(r: seq<Pdf.Subset>)
    ensures |Total(DocBags(Documents(r)))| == BlockCount(r)
  {
    if r != [] {
      BlocksCounted(r[..|r| - 1]);
      TotalOfLast(r);
      hide Total, DocBags, Documents;
    }
  }

  /** `numBlocks` as `RenderPageBlocks` adds it up. */
  function BlockCount(r: seq<Pdf.Subset>): nat {
    if r == [] then 0 else BlockCount(r[..|r| - 1]) + |r[|r| - 1].blocks|
  }

  lemma CountOfLast(r: seq<Pdf.Subset>)
    ensures BlockCount([]) == 0
    ensures r != [] ==> BlockCount(r) == BlockCount(r[..|r| - 1]) + |r[|r| - 1].blocks|
  {
  }

  lemma NoPages(n: nat, blockSize: nat)
    requires Pdf.Tiles([], n, blockSize)
    ensures n == 0
  {
  }

  lemma {:induction false} BlocksFillPages(r: seq<Pdf.Subset>, n: nat, blockSize: nat)
    requires Pdf.Tiles(r, n, blockSize) && blockSize > 0
    ensures BlockCount(r) * blockSize == n
    decreases |r|
  {
    if r == [] {
      NoPages(n, blockSize);
    } else {
      hide Pdf.Tiles, Pdf.WholeBlocks, BlockCount;
      var k := |r| - 1;
      WithoutLastSubset(r, n, blockSize);
      Pdf.SubsetEnd(r[k], blockSize);
      CountOfLast(r);
      BlocksFillPages(r[..k], r[k].from - 1, blockSize);
      AddUp(BlockCount(r), BlockCount(r[..k]), |r[k].blocks|, blockSize, r[k].from, n);
    }
  }

  lemma AddUp(total: nat, a: nat, b: nat, m: nat, from: nat, n: nat)
    requires total == a + b && a * m == from - 1 && n == from - 1 + b * m
    ensures total * m == n
  {
  }

  /** Every partition of a nonempty document is a valid configuration of the pipeline,
      and the number of exams is the number of pages over the pages of one exam. */
  lemma PartitionIsValid(r: seq<Pdf.Subset>, n: nat, blockSize: nat, parallelism: nat)
    requires Pdf.Tiles(r, n, blockSize) && blockSize > 0 && n > 0 && parallelism > 0
    ensures var c := P.Config(Documents(r), blockSize, parallelism);
            ValidConfig(c) && |AllBlocks(c)| == BlockCount(r) == n / blockSize && AllBlocks(c) != multiset{}
  {
    SubsetsOnce(r, n, blockSize);
    BlocksCounted(r);
    BlocksFillPages(r, n, blockSize);
    assert r != [];
    hide Total, DocBags, Documents, Pdf.Tiles, BlockCount;
    QuotientIs(n, blockSize, BlockCount(r), 0);
    assert BlockCount(r) != 0;
  }
}
