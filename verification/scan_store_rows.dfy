/** Facts about the page table alone: unique file keys, page indexes, and what
    adding and deleting the rows of one scan does to them. */
module ScanStoreRows {
  import opened Sequences
  import opened ScanStore

  /** No file key is shared by two rows. */
  ghost predicate UniqueKeys(pages: seq<PageRow>) {
    pages == [] ||
    var init, last := pages[..|pages| - 1], pages[|pages| - 1];
    UniqueKeys(init) && last.matrixKey !in MatrixKeys(init) && last.pictureKey !in PictureKeys(init)
  }

  /** The rows of every scan are numbered from 0 in table order. */
  ghost predicate Numbered(pages: seq<PageRow>) {
    forall id: Id, k: nat :: k < |Filter(RowOf(id), pages)| ==> Filter(RowOf(id), pages)[k].index == k
  }

  lemma {:induction false} KeyOfRow(pages: seq<PageRow>, k: nat)
    requires k < |pages|
    ensures pages[k].matrixKey in MatrixKeys(pages) && pages[k].pictureKey in PictureKeys(pages)
  {
    if k < |pages| - 1 {
      KeyOfRow(pages[..|pages| - 1], k);
    }
  }

  /** The keys of rows are those of some row, of either kind. */
  lemma {:induction false} KeyHasRow(rows: seq<PageRow>, key: Key)
    requires key in MatrixKeys(rows)
    ensures exists r :: r in rows && r.matrixKey == key
  {
    var last := rows[|rows| - 1];
    if key == last.matrixKey {
      assert last in rows;
    } else {
      KeyHasRow(rows[..|rows| - 1], key);
    }
  }

  lemma {:induction false} PictureHasRow(rows: seq<PageRow>, key: Key)
    requires key in PictureKeys(rows)
    ensures exists r :: r in rows && r.pictureKey == key
  {
    var last := rows[|rows| - 1];
    if key == last.pictureKey {
      assert last in rows;
    } else {
      PictureHasRow(rows[..|rows| - 1], key);
    }
  }

  lemma {:induction false} UniqueMeansDistinct(pages: seq<PageRow>, i: nat, j: nat)
    requires UniqueKeys(pages) && i < j < |pages|
    ensures pages[i].matrixKey != pages[j].matrixKey && pages[i].pictureKey != pages[j].pictureKey
  {
    var init := pages[..|pages| - 1];
    if j == |pages| - 1 {
      KeyOfRow(init, i);
    } else {
      UniqueMeansDistinct(init, i, j);
    }
  }

  lemma OneMoreRow(init: seq<PageRow>, last: PageRow)
    ensures MatrixKeys(init + [last]) == MatrixKeys(init) + {last.matrixKey}
    ensures PictureKeys(init + [last]) == PictureKeys(init) + {last.pictureKey}
    ensures UniqueKeys(init + [last])
            <==> UniqueKeys(init) && last.matrixKey !in MatrixKeys(init) && last.pictureKey !in PictureKeys(init)
  {
    assert (init + [last])[..|init|] == init;
  }

  lemma SplitSets(all: set<Key>, kept: set<Key>, gone: set<Key>, key: Key)
    requires kept == all - gone && gone <= all && key !in all
    ensures kept + {key} == all + {key} - gone && kept == all + {key} - (gone + {key})
  {
  }

  /** Deleting the rows of a scan splits the keys in two. */
  lemma {:induction false} KeysSplit(pages: seq<PageRow>, id: Id)
    requires UniqueKeys(pages)
    ensures UniqueKeys(Filter(RowNotOf(id), pages))
    ensures MatrixKeys(Filter(RowNotOf(id), pages)) == MatrixKeys(pages) - MatrixKeys(Filter(RowOf(id), pages))
    ensures PictureKeys(Filter(RowNotOf(id), pages)) == PictureKeys(pages) - PictureKeys(Filter(RowOf(id), pages))
    ensures MatrixKeys(Filter(RowOf(id), pages)) <= MatrixKeys(pages)
    ensures PictureKeys(Filter(RowOf(id), pages)) <= PictureKeys(pages)
  {
    if pages != [] {
      var init, last := pages[..|pages| - 1], pages[|pages| - 1];
      assert pages == init + [last];
      OneMoreRow(init, last);
      KeysSplit(init, id);
      var kept, gone := Filter(RowNotOf(id), init), Filter(RowOf(id), init);
      SplitSets(MatrixKeys(init), MatrixKeys(kept), MatrixKeys(gone), last.matrixKey);
      SplitSets(PictureKeys(init), PictureKeys(kept), PictureKeys(gone), last.pictureKey);
      OneMoreRow(gone, last);
      OneMoreRow(kept, last);
      hide MatrixKeys, PictureKeys, UniqueKeys;
    }
  }

  /** Adding rows with fresh keys. */
  lemma {:induction false} KeysAdded(pages: seq<PageRow>, added: seq<PageRow>)
    requires UniqueKeys(pages) && UniqueKeys(added)
    requires MatrixKeys(pages) !! MatrixKeys(added) && PictureKeys(pages) !! PictureKeys(added)
    ensures UniqueKeys(pages + added)
    ensures MatrixKeys(pages + added) == MatrixKeys(pages) + MatrixKeys(added)
    ensures PictureKeys(pages + added) == PictureKeys(pages) + PictureKeys(added)
  {
    if added == [] {
      assert pages + added == pages;
    } else {
      var init := added[..|added| - 1];
      KeysAdded(pages, init);
      assert (pages + added)[..|pages + added| - 1] == pages + init;
    }
  }

  lemma {:induction false} KeysOfNewRows(id: Id, inputs: seq<PageInput>)
    requires forall i, j :: 0 <= i < j < |inputs| ==>
               inputs[i].matrixKey != inputs[j].matrixKey && inputs[i].pictureKey != inputs[j].pictureKey
    ensures var rows := PageRows(id, inputs);
            UniqueKeys(rows) && MatrixKeys(rows) == KeysOfMatrices(inputs) && PictureKeys(rows) == KeysOfPictures(inputs)
  {
    if inputs != [] {
      hide MatrixKeys, PictureKeys, UniqueKeys, PageRows, KeysOfMatrices, KeysOfPictures;
      var n := |inputs| - 1;
      assert inputs[..n + 1] == inputs;
      PrefixGrows(inputs, n);
      KeyNotBefore(inputs, n);
      KeysOfNewRows(id, inputs[..n]);
      PageRowsGrow(id, inputs, n);
      OneMoreRow(PageRows(id, inputs[..n]), PageRow(inputs[n].matrixKey, inputs[n].pictureKey, n, id));
    }
  }

  lemma KeyNotBefore(inputs: seq<PageInput>, n: nat)
    requires n < |inputs|
    requires forall i, j :: 0 <= i < j < |inputs| ==>
               inputs[i].matrixKey != inputs[j].matrixKey && inputs[i].pictureKey != inputs[j].pictureKey
    ensures inputs[n].matrixKey !in KeysOfMatrices(inputs[..n]) && inputs[n].pictureKey !in KeysOfPictures(inputs[..n])
  {
  }

  /** Numbering survives the deletion of a scan, and the addition of one. */
  lemma NumberedWithout(pages: seq<PageRow>, id: Id)
    requires Numbered(pages)
    ensures Numbered(Filter(RowNotOf(id), pages))
    ensures forall other: Id :: Filter(RowOf(other), Filter(RowNotOf(id), pages))
                                == if other == id then [] else Filter(RowOf(other), pages)
  {
    var kept := Filter(RowNotOf(id), pages);
    forall other: Id
      ensures Filter(RowOf(other), kept) == if other == id then [] else Filter(RowOf(other), pages)
    {
      FilterTwice(RowOf(other), RowNotOf(id), pages);
    }
  }

  lemma NumberedWith(pages: seq<PageRow>, id: Id, inputs: seq<PageInput>)
    requires Numbered(pages) && forall k :: 0 <= k < |pages| ==> pages[k].scanId != id
    ensures Numbered(pages + PageRows(id, inputs))
    ensures forall other: Id :: Filter(RowOf(other), pages + PageRows(id, inputs))
                                == if other == id then PageRows(id, inputs) else Filter(RowOf(other), pages)
  {
    hide Filter, PageRows;
    forall other: Id
      ensures Filter(RowOf(other), pages + PageRows(id, inputs))
              == if other == id then PageRows(id, inputs) else Filter(RowOf(other), pages)
    {
      RowsAfterSave(pages, id, PageRows(id, inputs), other);
    }
    NumberedBeside(pages, pages + PageRows(id, inputs), id, PageRows(id, inputs));
  }

  lemma NumberedBeside(pages: seq<PageRow>, pages': seq<PageRow>, id: Id, rows: seq<PageRow>)
    requires Numbered(pages) && forall k :: 0 <= k < |rows| ==> rows[k].index == k
    requires forall other: Id :: Filter(RowOf(other), pages') == if other == id then rows else Filter(RowOf(other), pages)
    ensures Numbered(pages')
  {
    hide Filter;
    forall other: Id, k: nat | k < |Filter(RowOf(other), pages')|
      ensures Filter(RowOf(other), pages')[k].index == k
    {
      assert Filter(RowOf(other), pages') == if other == id then rows else Filter(RowOf(other), pages);
    }
  }

  lemma RowsAfterSave(pages: seq<PageRow>, id: Id, rows: seq<PageRow>, other: Id)
    requires forall k :: 0 <= k < |pages| ==> pages[k].scanId != id
    requires forall k :: 0 <= k < |rows| ==> rows[k].scanId == id
    ensures Filter(RowOf(other), pages + rows) == if other == id then rows else Filter(RowOf(other), pages)
  {
    FilterAppend(RowOf(other), pages, rows);
    if other == id {
      FilterNone(RowOf(id), pages);
      FilterAll(RowOf(id), rows);
    } else {
      FilterNone(RowOf(other), rows);
    }
  }

  /** In a numbered table the ordered query returns the rows as they stand. */
  lemma OrderedQuery(s: Store, id: Id)
    requires Numbered(s.pages)
    ensures PagesForScan(s, id) == Filter(RowOf(id), s.pages)
  {
    assert Ordered(Filter(RowOf(id), s.pages));
  }
}
