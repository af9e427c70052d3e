/** Splitting a PDF into blocks of pages: `blockPartition`, `renderPages` and the
    index arithmetic of `RenderPageBlocks` in internal/pdf/pdf.go. A document is a
    sequence of pages; rendering a page is a function that may fail. */
module Pdf {
  import opened Omr
  import opened Arithmetic

  datatype PdfError = ErrInvalidBlockSize | ErrPageOutOfBounds | ErrBadInput | ErrRender

  /** Boundaries are 1-based and inclusive. */
  datatype Block = Block(from: nat, thru: int)

  datatype Subset = Subset(from: nat, thru: int, blocks: seq<Block>)

  /** The blocks of a subset follow one another from `from` to `thru`, all whole. */
  predicate WholeBlocks(s: Subset, blockSize: nat) {
    && (forall j :: 0 <= j < |s.blocks| ==> s.blocks[j].thru == s.blocks[j].from + blockSize - 1)
    && (forall j :: 0 < j < |s.blocks| ==> s.blocks[j].from == s.blocks[j - 1].thru + 1)
    && (s.blocks != [] ==> s.blocks[0].from == s.from)
    && s.thru == if s.blocks == [] then s.from - 1 else s.blocks[|s.blocks| - 1].thru
  }

  /** The subsets follow one another from page 1 to page n. */
  predicate Tiles(r: seq<Subset>, n: nat, blockSize: nat) {
    && (forall i :: 0 <= i < |r| ==> WholeBlocks(r[i], blockSize) && r[i].blocks != [])
    && (forall i :: 0 < i < |r| ==> r[i].from == r[i - 1].thru + 1)
    && (if r == [] then n == 0 else r[0].from == 1 && r[|r| - 1].thru == n)
  }

  /** How many blocks subset `i` of `m` gets out of `total`. */
  function Share(total: nat, m: nat, i: nat): nat
    requires m > 0
  {
    total / m + if i < total % m then 1 else 0
  }

  /** The first loop deals the blocks round robin. */
  method DealBlocks(total: nat, m: nat) returns (shares: seq<nat>)
    requires total > 0 ==> m > 0
    ensures |shares| == m && Sum(shares) == total
    ensures m > 0 ==> forall i :: 0 <= i < m ==> shares[i] == Share(total, m, i)
  {
    var blocksPerRegion := new nat[m](_ => 0);
    var numBlocks: nat := total;
    var idx: nat := 0;
    ghost var rounds: nat := 0;
    SumConstant(blocksPerRegion[..], 0);
    while numBlocks > 0
      invariant numBlocks <= total && (m > 0 ==> idx < m)
      invariant m > 0 ==> total - numBlocks == rounds * m + idx
      invariant m == 0 ==> numBlocks == 0
      invariant forall i :: 0 <= i < m ==> blocksPerRegion[i] == rounds + if i < idx then 1 else 0
      invariant Sum(blocksPerRegion[..]) == total - numBlocks
    {
      numBlocks := numBlocks - 1;
      ghost var before := blocksPerRegion[..];
      blocksPerRegion[idx] := blocksPerRegion[idx] + 1;
      SumUpdate(before, idx, before[idx] + 1);
      assert blocksPerRegion[..] == before[idx := before[idx] + 1];
      idx := idx + 1;
      if idx == m { rounds := rounds + 1; }
      NextIndex(idx, m);
      idx := idx % m;
    }
    if m > 0 { QuotientIs(total, m, rounds, idx); }
    shares := blocksPerRegion[..];
  }

  /** One iteration of the second loop: the blocks of a subset. */
  method MakeSubset(start: nat, blocks: nat, blockSize: nat) returns (s: Subset)
    requires start > 0 && blockSize > 0
    ensures s.from == start && |s.blocks| == blocks && s.thru == start - 1 + blocks * blockSize
    ensures WholeBlocks(s, blockSize)
  {
    var from := start;
    var made: seq<Block> := [];
    for j := 0 to blocks
      invariant |made| == j && from == start + j * blockSize
      invariant WholeBlocks(Subset(start, from - 1, made), blockSize)
    {
      var thru := from + blockSize - 1;
      made := made + [Block(from, thru)];
      from := thru + 1;
    }
    s := Subset(start, from - 1, made);
  }

  lemma WholeQuotient(n: nat, m: nat)
    requires m > 0 && n % m == 0
    ensures n / m * m == n && (n / m > 0 ==> n > 0)
  {
  }

  /** The subsets tile 1..n in whole blocks, none is empty, and their sizes differ
      by at most one block, larger ones first. */
  method BlockPartition(n: nat, blockSize: nat, maxSubsets: nat) returns (r: Result<seq<Subset>, PdfError>)
    requires blockSize > 0 && (n > 0 ==> maxSubsets > 0)
    ensures r == Failure(ErrInvalidBlockSize) <==> n % blockSize != 0
    ensures r.Success? ==>
              && Tiles(r.value, n, blockSize)
              && |r.value| == Min(n / blockSize, maxSubsets)
              && forall i :: 0 <= i < |r.value| ==> |r.value[i].blocks| == Share(n / blockSize, |r.value|, i) > 0
    ensures r.Success? ==> forall i, j :: 0 <= i < j < |r.value| ==> 0 <= |r.value[i].blocks| - |r.value[j].blocks| <= 1
    ensures r.Success? || r.error == ErrInvalidBlockSize
  {
    if n % blockSize != 0 {
      return Failure(ErrInvalidBlockSize);
    }
    var numBlocks := n / blockSize;
    WholeQuotient(n, blockSize);
    var numSubsets := Min(numBlocks, maxSubsets);
    hide Share, Tiles, Sum, PageCount;
    if numBlocks > 0 { SharesArePositive(numBlocks, numSubsets); }
    var shares := DealBlocks(numBlocks, numSubsets);
    PageCountIsProduct(shares, blockSize);
    if numSubsets > 0 { SharesFall(numBlocks, numSubsets); }
    var regions := MakeSubsets(shares, blockSize);
    r := Success(regions);
  }

  /** The second loop: subsets of these sizes, one after the other. */
  method MakeSubsets(shares: seq<nat>, blockSize: nat) returns (regions: seq<Subset>)
    requires blockSize > 0 && forall i :: 0 <= i < |shares| ==> shares[i] > 0
    ensures Tiles(regions, PageCount(shares, blockSize), blockSize)
    ensures |regions| == |shares| && forall i :: 0 <= i < |shares| ==> |regions[i].blocks| == shares[i]
  {
    regions := [];
    var from: nat := 1;
    for i := 0 to |shares|
      invariant |regions| == i && from == 1 + PageCount(shares[..i], blockSize)
      invariant Tiles(regions, from - 1, blockSize)
      invariant forall k :: 0 <= k < i ==> |regions[k].blocks| == shares[k]
    {
      hide WholeBlocks, Tiles;
      var region := MakeSubset(from, shares[i], blockSize);
      assert shares[..i + 1][..i] == shares[..i];
      TilesExtended(regions, from - 1, blockSize, region);
      regions := regions + [region];
      from := region.thru + 1;
    }
    assert shares[..|shares|] == shares;
  }

  lemma TilesExtended(r: seq<Subset>, n: nat, blockSize: nat, s: Subset)
    requires Tiles(r, n, blockSize) && WholeBlocks(s, blockSize) && s.blocks != [] && s.from == n + 1 && s.thru >= 0
    ensures Tiles(r + [s], s.thru, blockSize)
  {
    hide WholeBlocks;
  }

  function PageCount(shares: seq<nat>, blockSize: nat): nat {
    if shares == [] then 0 else PageCount(shares[..|shares| - 1], blockSize) + shares[|shares| - 1] * blockSize
  }

  lemma {:induction false} PageCountIsProduct(shares: seq<nat>, blockSize: nat)
    ensures PageCount(shares, blockSize) == Sum(shares) * blockSize
  {
    if shares != [] {
      var n := |shares| - 1;
      PageCountIsProduct(shares[..n], blockSize);
      assert (Sum(shares[..n]) + shares[n]) * blockSize == Sum(shares[..n]) * blockSize + shares[n] * blockSize;
    }
  }

  lemma SharesArePositive(total: nat, m: nat)
    requires 0 < m <= total
    ensures forall i :: 0 <= i < m ==> Share(total, m, i) > 0
  {
    assert total == m * (total / m) + total % m;
  }

  lemma SharesFall(total: nat, m: nat)
    requires m > 0
    ensures forall i: nat, j: nat :: i < j < m ==> 0 <= Share(total, m, i) as int - Share(total, m, j) <= 1
  {
  }

  // ----- What a tiling means for the pages

  /** Block `j` of a subset starts j blocks after the subset does. */
  lemma {:induction false} BlockStart(s: Subset, blockSize: nat, j: nat)
    requires WholeBlocks(s, blockSize) && j < |s.blocks|
    ensures s.blocks[j].from == s.from + j * blockSize
  {
    if j > 0 {
      BlockStart(s, blockSize, j - 1);
      assert (j - 1) * blockSize + blockSize == j * blockSize;
    }
  }

  lemma SubsetEnd(s: Subset, blockSize: nat)
    requires WholeBlocks(s, blockSize)
    ensures s.thru == s.from - 1 + |s.blocks| * blockSize
  {
    if s.blocks != [] {
      var n := |s.blocks| - 1;
      BlockStart(s, blockSize, n);
      assert n * blockSize + blockSize == (n + 1) * blockSize;
    }
  }

  lemma {:induction false} SubsetsAscend(r: seq<Subset>, n: nat, blockSize: nat, i: nat, j: nat)
    requires Tiles(r, n, blockSize) && blockSize > 0 && i < j < |r|
    ensures r[i].from <= r[i].thru < r[j].from <= r[j].thru
  {
    SubsetEnd(r[i], blockSize);
    SubsetEnd(r[j], blockSize);
    AtLeastOne(blockSize, |r[i].blocks|);
    AtLeastOne(blockSize, |r[j].blocks|);
    if i < j - 1 {
      SubsetsAscend(r, n, blockSize, i, j - 1);
    }
  }

  /** The subset and the block that hold a page. */
  lemma {:induction false} PageIsCovered(r: seq<Subset>, n: nat, blockSize: nat, p: nat) returns (i: nat, j: nat)
    requires Tiles(r, n, blockSize) && blockSize > 0 && 1 <= p <= n
    ensures i < |r| && j < |r[i].blocks| && r[i].blocks[j].from <= p <= r[i].blocks[j].thru
  {
    i := |r| - 1;
    while r[i].from > p
      invariant 0 <= i < |r| && p <= r[i].thru
      decreases i
    {
      i := i - 1;
    }
    j := |r[i].blocks| - 1;
    while r[i].blocks[j].from > p
      invariant 0 <= j < |r[i].blocks| && p <= r[i].blocks[j].thru
      decreases j
    {
      j := j - 1;
    }
  }

  /** No page is in two blocks. */
  lemma PageIsCoveredOnce(r: seq<Subset>, n: nat, blockSize: nat, p: nat, i: nat, j: nat, i': nat, j': nat)
    requires Tiles(r, n, blockSize) && blockSize > 0
    requires i < |r| && j < |r[i].blocks| && r[i].blocks[j].from <= p <= r[i].blocks[j].thru
    requires i' < |r| && j' < |r[i'].blocks| && r[i'].blocks[j'].from <= p <= r[i'].blocks[j'].thru
    ensures i == i' && j == j'
  {
    BlockInSubset(r[i], blockSize, j);
    BlockInSubset(r[i'], blockSize, j');
    if i < i' {
      SubsetsAscend(r, n, blockSize, i, i');
    } else if i' < i {
      SubsetsAscend(r, n, blockSize, i', i);
    } else {
      BlockStart(r[i], blockSize, j);
      BlockStart(r[i], blockSize, j');
      if j < j' { StartsApart(j, j', blockSize); } else if j' < j { StartsApart(j', j, blockSize); }
    }
  }

  lemma BlockInSubset(s: Subset, blockSize: nat, j: nat)
    requires WholeBlocks(s, blockSize) && blockSize > 0 && j < |s.blocks|
    ensures s.from <= s.blocks[j].from && s.blocks[j].thru <= s.thru
  {
    BlockStart(s, blockSize, j);
    SubsetEnd(s, blockSize);
    var rest := |s.blocks| - j;
    AtLeastOne(blockSize, rest);
    assert |s.blocks| * blockSize == j * blockSize + rest * blockSize;
  }

  lemma StartsApart(j: nat, j': nat, blockSize: nat)
    requires j < j'
    ensures j * blockSize + blockSize <= j' * blockSize
  {
    AtLeastOne(blockSize, j' - j);
    assert j' * blockSize == j * blockSize + (j' - j) * blockSize;
  }

  // ----- Sub-documents and rendering

  /** `pageSpan`: the pages from..thru of a document. */
  function PageSpan<P>(doc: seq<P>, from: nat, thru: int): Result<seq<P>, PdfError> {
    if from < 1 || thru > |doc| then Failure(ErrPageOutOfBounds)
    else if from > thru then Failure(ErrBadInput)
    else Success(doc[from - 1..thru])
  }

  /** `renderPages`: all pages of the range in order, or the first error. */
  method RenderPages<P, M>(doc: seq<P>, start: nat, count: nat, render: P -> Result<M, PdfError>)
    returns (r: Result<seq<M>, PdfError>)
    ensures start + count > |doc| || start == |doc| ==> r == Failure(ErrPageOutOfBounds)
    ensures start + count <= |doc| && start < |doc| ==>
              match r
              case Success(mats) =>
                |mats| == count && forall k :: start <= k < start + count ==> render(doc[k]) == Success(mats[k - start])
              case Failure(e) =>
                exists k :: start <= k < start + count && render(doc[k]) == Failure(e)
                            && forall m :: start <= m < k ==> render(doc[m]).Success?
  {
    if start + count > |doc| || start == |doc| {
      return Failure(ErrPageOutOfBounds);
    }
    var mats: seq<M> := [];
    for i := start to start + count
      invariant |mats| == i - start
      invariant forall k :: start <= k < i ==> render(doc[k]) == Success(mats[k - start])
    {
      var page := render(doc[i]);
      if page.Failure? {
        return Failure(page.error);
      }
      mats := mats + [page.value];
    }
    r := Success(mats);
  }

  /** `startIdx`: where block `j` of a subset begins in its sub-document. */
  function StartIndex(j: nat, blockSize: nat): nat { j * blockSize }

  lemma BlockAtStartIndex(s: Subset, blockSize: nat, j: nat)
    requires WholeBlocks(s, blockSize) && j < |s.blocks|
    ensures s.blocks[j].from == s.from + StartIndex(j, blockSize)
  {
    BlockStart(s, blockSize, j);
  }

  /** The `blockSize` pages from `start` of the sub-document of a subset exist, and they
      are the pages of the block in the document. */
  predicate RendersBlock<P(==)>(doc: seq<P>, s: Subset, b: Block, start: nat, blockSize: nat) {
    var span := PageSpan(doc, s.from, s.thru);
    && span.Success? && start + blockSize <= |span.value| && start < |span.value|
    && 1 <= b.from <= b.thru <= |doc|
    && span.value[start..start + blockSize] == doc[b.from - 1..b.thru]
  }

  lemma BlockRendered<P>(doc: seq<P>, s: Subset, b: Block, start: nat, blockSize: nat)
    requires blockSize > 0 && 1 <= s.from <= s.thru <= |doc|
    requires b.from == s.from + start && b.thru == b.from + blockSize - 1 && b.thru <= s.thru
    ensures RendersBlock(doc, s, b, start, blockSize)
  {
    SliceOfSlice(doc, s.from - 1, s.thru, start, start + blockSize);
  }

  /** Page k of the range rendered for block j of subset i is page from+k of the
      document, so its bounds check never fires and each page is rendered for the
      one block that holds it. */
  lemma BlockProvenance<P>(doc: seq<P>, r: seq<Subset>, blockSize: nat, i: nat, j: nat)
    requires Tiles(r, |doc|, blockSize) && blockSize > 0 && i < |r| && j < |r[i].blocks|
    ensures RendersBlock(doc, r[i], r[i].blocks[j], StartIndex(j, blockSize), blockSize)
  {
    var s, b := r[i], r[i].blocks[j];
    assert WholeBlocks(s, blockSize) && b.thru == b.from + blockSize - 1;
    hide Tiles, WholeBlocks, StartIndex, RendersBlock;
    SubsetWithin(r, |doc|, blockSize, i);
    BlockInSubset(s, blockSize, j);
    BlockAtStartIndex(s, blockSize, j);
    BlockRendered(doc, s, b, StartIndex(j, blockSize), blockSize);
  }

  lemma SliceOfSlice<P>(doc: seq<P>, from: nat, thru: nat, a: nat, b: nat)
    requires from <= thru <= |doc| && a <= b && from + b <= thru
    ensures doc[from..thru][a..b] == doc[from + a..from + b]
  {
    var x, y := doc[from..thru][a..b], doc[from + a..from + b];
    assert forall k :: 0 <= k < b - a ==> x[k] == y[k];
  }

  lemma SubsetWithin(r: seq<Subset>, n: nat, blockSize: nat, i: nat)
    requires Tiles(r, n, blockSize) && blockSize > 0 && i < |r|
    ensures 1 <= r[i].from <= r[i].thru <= n
  {
    SubsetEnd(r[i], blockSize);
    AtLeastOne(blockSize, |r[i].blocks|);
    if i > 0 { SubsetsAscend(r, n, blockSize, 0, i); }
    if i < |r| - 1 { SubsetsAscend(r, n, blockSize, i, |r| - 1); }
    assert r[0].from == 1 && r[|r| - 1].thru == n;
  }

  /** The number of workers `RenderPageBlocks` asks for: never none. */
  function Workers(parallelism: nat, procs: nat, blockSize: nat): (workers: nat)
    ensures workers >= 1 && (blockSize >= 2 ==> workers <= 6)
  {
    var asked := Min(6, if parallelism == 0 then Min(6, procs / 2) else parallelism);
    if asked + 2 - blockSize > 1 then asked + 2 - blockSize else 1
  }

  /** What was asked for, or half the processors, but at most six, is the number of workers
      for blocks of two pages; each page more or less takes one away or adds one. */
  lemma WorkersExactly(parallelism: nat, procs: nat, blockSize: nat)
    ensures var workers := Workers(parallelism, procs, blockSize);
            var cap := if parallelism > 6 || (parallelism == 0 && procs >= 12) then 6
                       else if parallelism == 0 then procs / 2 else parallelism;
            if cap + 2 <= blockSize then workers == 1
            else workers + blockSize == cap + 2
  {
  }

  /** The pages of a span, one by one, or why there is none. */
  lemma SpanExactly<P>(doc: seq<P>, from: nat, thru: int)
    ensures match PageSpan(doc, from, thru)
            case Success(span) =>
              && 1 <= from <= thru <= |doc| && |span| == thru - from + 1
              && forall k :: 0 <= k < |span| ==> span[k] == doc[from - 1 + k]
            case Failure(e) => e == if 1 <= from && thru <= |doc| then ErrBadInput else ErrPageOutOfBounds
    ensures PageSpan(doc, from, thru).Success? <==> 1 <= from <= thru <= |doc|
  {
  }
}
