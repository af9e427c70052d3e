/** The scan store over all runs: saves that succeed or fail, loads, deletions,
    purges and files lost from outside, in any order. */
module ScanStoreRuns {
  import opened Omr
  import opened Codecs
  import opened Sequences
  import opened ScanStore
  import opened ScanStoreRows

  // ----- What one operation does to the tables

  function ScanIds(scans: seq<ScanRow>): set<Id> {
    if scans == [] then {} else ScanIds(scans[..|scans| - 1]) + {scans[|scans| - 1].id}
  }

  ghost predicate UniqueScans(scans: seq<ScanRow>) {
    scans == [] || (UniqueScans(scans[..|scans| - 1]) && scans[|scans| - 1].id !in ScanIds(scans[..|scans| - 1]))
  }

  /** Every page row belongs to a live scan. */
  ghost predicate PagesLive(pages: seq<PageRow>, ids: set<Id>) {
    forall k :: 0 <= k < |pages| ==> pages[k].scanId in ids
  }

  ghost predicate Consistent(s: Store) {
    UniqueKeys(s.pages) && Numbered(s.pages) && UniqueScans(s.scans) && PagesLive(s.pages, ScanIds(s.scans))
  }

  /** Files that no page row refers to. */
  function StrayMats(s: Store): set<Key> { s.mats.Keys - MatrixKeys(s.pages) }

  function StrayPictures(s: Store): set<Key> { s.pictures - PictureKeys(s.pages) }

  lemma OneMoreScan(init: seq<ScanRow>, last: ScanRow)
    ensures ScanIds(init + [last]) == ScanIds(init) + {last.id}
    ensures UniqueScans(init + [last]) <==> UniqueScans(init) && last.id !in ScanIds(init)
  {
    assert (init + [last])[..|init|] == init;
  }

  lemma KeptScans(init: seq<ScanRow>, last: ScanRow, id: Id)
    ensures var kept := Filter(ScanNot(id), init);
            Filter(ScanNot(id), init + [last]) == if last.id != id then kept + [last] else kept
  {
    assert (init + [last])[..|init|] == init;
  }

  lemma WithoutId(ids: set<Id>, id: Id, last: Id)
    ensures ids + {last} - {id} == if last != id then ids - {id} + {last} else ids - {id}
  {
  }

  lemma {:induction false} ScansSplit(scans: seq<ScanRow>, id: Id)
    requires UniqueScans(scans)
    ensures UniqueScans(Filter(ScanNot(id), scans)) && ScanIds(Filter(ScanNot(id), scans)) == ScanIds(scans) - {id}
  {
    if scans == [] {
      NoScans(id);
    } else {
      hide Filter, UniqueScans, ScanIds, ScanNot;
      var init, last := scans[..|scans| - 1], scans[|scans| - 1];
      var kept := Filter(ScanNot(id), init);
      assert scans == init + [last];
      OneMoreScan(init, last);
      KeptScans(init, last, id);
      ScansSplit(init, id);
      OneMoreScan(kept, last);
      WithoutId(ScanIds(init), id, last.id);
    }
  }

  lemma NoScans(id: Id)
    ensures UniqueScans(Filter(ScanNot(id), [])) && ScanIds(Filter(ScanNot(id), [])) == ScanIds([]) - {id}
  {
  }

  lemma {:induction false} IdOfScan(scans: seq<ScanRow>, k: nat)
    requires k < |scans|
    ensures scans[k].id in ScanIds(scans)
  {
    if k < |scans| - 1 { IdOfScan(scans[..|scans| - 1], k); }
  }

  lemma {:induction false} LiveWithout(pages: seq<PageRow>, ids: set<Id>, id: Id)
    requires PagesLive(pages, ids)
    ensures PagesLive(Filter(RowNotOf(id), pages), ids - {id})
  {
    if pages != [] { LiveWithout(pages[..|pages| - 1], ids, id); }
  }

  /** Deleting keeps the store consistent and removes the scan entirely. Its files
      go too, unless the page query fails: then exactly those present are strays. */
  lemma DeleteKeeps(s: Store, id: Id, queryWorks: bool)
    requires Consistent(s)
    ensures var s' := Delete(s, id, queryWorks);
            && Consistent(s') && ScanIds(s'.scans) == ScanIds(s.scans) - {id}
            && (forall other: Id :: Filter(RowOf(other), s'.pages) == if other == id then [] else Filter(RowOf(other), s.pages))
            && MatrixKeys(s'.pages) == MatrixKeys(s.pages) - MatrixKeys(Filter(RowOf(id), s.pages))
            && PictureKeys(s'.pages) == PictureKeys(s.pages) - PictureKeys(Filter(RowOf(id), s.pages))
    ensures var s', rows := Delete(s, id, queryWorks), Filter(RowOf(id), s.pages);
            && StrayMats(s') == StrayMats(s) + (if queryWorks then {} else MatrixKeys(rows) * s.mats.Keys)
            && StrayPictures(s') == StrayPictures(s) + (if queryWorks then {} else PictureKeys(rows) * s.pictures)
  {
    var rows := Filter(RowOf(id), s.pages);
    OrderedQuery(s, id);
    DeleteIs(s, id, queryWorks);
    KeysSplit(s.pages, id);
    NumberedWithout(s.pages, id);
    ScansSplit(s.scans, id);
    LiveWithout(s.pages, ScanIds(s.scans), id);
    StraysOfDelete(s.mats.Keys, MatrixKeys(s.pages), MatrixKeys(rows), queryWorks);
    StraysOfDelete(s.pictures, PictureKeys(s.pages), PictureKeys(rows), queryWorks);
    hide Filter, Numbered, UniqueKeys, UniqueScans, ScanIds, PagesLive, MatrixKeys, PictureKeys, Delete, PagesForScan;
  }

  lemma StraysOfDelete(files: set<Key>, all: set<Key>, gone: set<Key>, queryWorks: bool)
    requires gone <= all
    ensures (if queryWorks then files - gone else files - {}) - (all - gone)
            == files - all + (if queryWorks then {} else gone * files)
  {
  }

  lemma {:induction false} IdAbsent(scans: seq<ScanRow>, id: Id)
    requires forall k :: 0 <= k < |scans| ==> scans[k].id != id
    ensures id !in ScanIds(scans)
  {
    if scans != [] { IdAbsent(scans[..|scans| - 1], id); }
  }

  /** The file a failing save may leave behind. */
  function Leftover(libs: Libs, rowInserted: bool, inputs: seq<PageInput>): set<Key>
    requires Encodable(inputs)
  {
    var n := SavedCount(libs, inputs);
    if rowInserted && n < |inputs| && Outcome(libs, inputs[n]).leftover.Some? then {inputs[n].matrixKey} else {}
  }

  /** Saving keeps the store consistent; it adds the scan with all its rows, or
      nothing but the one matrix file that could not be encoded. */
  lemma SaveKeeps(libs: Libs, s: Store, row: ScanRow, rowInserted: bool, inputs: seq<PageInput>)
    requires Consistent(s) && Encodable(inputs) && FreshNames(s, row.id, inputs)
    ensures var saving, leftover := Save(libs, s, row, rowInserted, inputs), Leftover(libs, rowInserted, inputs);
            && Consistent(saving.store)
            && StrayMats(saving.store) == StrayMats(s) + leftover && StrayPictures(saving.store) == StrayPictures(s)
            && if saving.result.Failure? then
                 saving.store == s.(mats := saving.store.mats) && saving.store.mats - leftover == s.mats
               else
                 && leftover == {} && AllSaved(libs, inputs)
                 && saving.store == WithPages(libs, s.(scans := s.scans + [row]), row.id, inputs)
  {
    hide *;
    SaveCases(libs, s, row, rowInserted, inputs);
    if rowInserted && AllSaved(libs, inputs) {
      SavedKeeps(libs, s, row, inputs);
    } else {
      LeftoverIsFresh(libs, s, row.id, rowInserted, inputs);
      FailedKeeps(s, Save(libs, s, row, rowInserted, inputs).store, Leftover(libs, rowInserted, inputs));
    }
  }

  /** A save stores everything, or changes nothing but the leftover file. */
  lemma SaveCases(libs: Libs, s: Store, row: ScanRow, rowInserted: bool, inputs: seq<PageInput>)
    requires Encodable(inputs)
    ensures var saving, leftover := Save(libs, s, row, rowInserted, inputs), Leftover(libs, rowInserted, inputs);
            if rowInserted && AllSaved(libs, inputs) then
              && saving.result.Success? && leftover == {}
              && saving.store == WithPages(libs, s.(scans := s.scans + [row]), row.id, inputs)
            else
              && saving.result.Failure? && saving.store == s.(mats := saving.store.mats)
              && OnlyAdds(s.mats, saving.store.mats, leftover)
  {
    hide Outcome, WithPages;
    var n := SavedCount(libs, inputs);
    assert n < |inputs| ==> !AllSaved(libs, inputs);
  }

  /** `after` has a file for each of `keys`, and all else as in `before`. */
  ghost predicate OnlyAdds(before: map<Key, seq<Byte>>, after: map<Key, seq<Byte>>, keys: set<Key>) {
    after.Keys == before.Keys + keys && forall key :: key in before && key !in keys ==> after[key] == before[key]
  }

  lemma LeftoverIsFresh(libs: Libs, s: Store, id: Id, rowInserted: bool, inputs: seq<PageInput>)
    requires Encodable(inputs) && FreshNames(s, id, inputs)
    ensures Leftover(libs, rowInserted, inputs) !! s.mats.Keys + MatrixKeys(s.pages)
  {
    LeftoverKey(libs, rowInserted, inputs);
    hide Leftover, KeysOfMatrices, KeysOfPictures, MatrixKeys, PictureKeys, Encodable;
  }

  lemma FailedKeeps(s: Store, s': Store, leftover: set<Key>)
    requires Consistent(s) && s' == s.(mats := s'.mats)
    requires OnlyAdds(s.mats, s'.mats, leftover) && leftover !! s.mats.Keys + MatrixKeys(s.pages)
    ensures Consistent(s') && s'.mats - leftover == s.mats
    ensures StrayMats(s') == StrayMats(s) + leftover && StrayPictures(s') == StrayPictures(s)
  {
    hide UniqueKeys, Numbered, UniqueScans, PagesLive, ScanIds, MatrixKeys, PictureKeys;
  }

  lemma SavedKeeps(libs: Libs, s: Store, row: ScanRow, inputs: seq<PageInput>)
    requires Consistent(s) && FreshNames(s, row.id, inputs) && AllSaved(libs, inputs)
    ensures var s' := WithPages(libs, s.(scans := s.scans + [row]), row.id, inputs);
            && Consistent(s')
            && StrayMats(s') == StrayMats(s) && StrayPictures(s') == StrayPictures(s)
            && ScanIds(s'.scans) == ScanIds(s.scans) + {row.id}
            && MatrixKeys(s'.pages) == MatrixKeys(s.pages) + KeysOfMatrices(inputs)
            && PictureKeys(s'.pages) == PictureKeys(s.pages) + KeysOfPictures(inputs)
            && (forall other: Id :: Filter(RowOf(other), s'.pages)
                                    == if other == row.id then PageRows(row.id, inputs) else Filter(RowOf(other), s.pages))
  {
    var rows := PageRows(row.id, inputs);
    KeysOfNewRows(row.id, inputs);
    KeysAdded(s.pages, rows);
    NumberedWith(s.pages, row.id, inputs);
    IdAbsent(s.scans, row.id);
    OneMoreScan(s.scans, row);
    LiveWith(s.pages, rows, ScanIds(s.scans), row.id);
    StraysOfSave(s.mats.Keys, MatrixKeys(s.pages), KeysOfMatrices(inputs));
    StraysOfSave(s.pictures, PictureKeys(s.pages), KeysOfPictures(inputs));
    hide Filter, UniqueKeys, Numbered, UniqueScans, ScanIds, MatrixKeys, PictureKeys, KeysOfMatrices, KeysOfPictures,
         PageRows, Files, AllSaved,
         PagesLive, FreshNames;
  }

  lemma LiveWith(pages: seq<PageRow>, rows: seq<PageRow>, ids: set<Id>, id: Id)
    requires PagesLive(pages, ids) && forall k :: 0 <= k < |rows| ==> rows[k].scanId == id
    ensures PagesLive(pages + rows, ids + {id})
  {
  }

  lemma StraysOfSave(files: set<Key>, all: set<Key>, added: set<Key>)
    requires added !! files + all
    ensures files + added - (all + added) == files - all
  {
  }

  // ----- Runs

  datatype Op =
    | SaveOp(row: ScanRow, rowInserted: bool, inputs: seq<PageInput>)
    | LoadOp(id: Id, queries: (bool, bool), unreadable: set<Key>)
    | DeleteOp(id: Id, queryWorks: bool)
    | PurgeOp(t: int, listWorks: bool, badQueries: set<Id>)
    | LoseOp(lostMats: set<Key>, lostPictures: set<Key>)

  /** The store, the names handed out so far, and how many saves failed to encode
      a matrix into the file they had created. */
  datatype World = World(store: Store, issued: set<Uuid>, failedEncodings: nat)

  ghost predicate Legal(w: World, op: Op) {
    op.SaveOp? ==>
      && Encodable(op.inputs)
      && op.row.id !in w.issued
      && KeysOfMatrices(op.inputs) !! w.issued && KeysOfPictures(op.inputs) !! w.issued
      && forall i, j :: 0 <= i < j < |op.inputs| ==>
           op.inputs[i].matrixKey != op.inputs[j].matrixKey && op.inputs[i].pictureKey != op.inputs[j].pictureKey
  }

  ghost function Step(libs: Libs, w: World, op: Op): World
    requires Legal(w, op)
  {
    var s := w.store;
    match op
    case SaveOp(row, rowInserted, inputs) =>
      World(Save(libs, s, row, rowInserted, inputs).store,
            w.issued + {row.id} + KeysOfMatrices(inputs) + KeysOfPictures(inputs),
            w.failedEncodings + |Leftover(libs, rowInserted, inputs)|)
    case LoadOp(id, queries, unreadable) => w.(store := Load(libs, s, id, queries, unreadable).store)
    case DeleteOp(id, queryWorks) => w.(store := Delete(s, id, queryWorks))
    case PurgeOp(t, listWorks, badQueries) => w.(store := Purge(s, t, listWorks, badQueries))
    case LoseOp(lostMats, lostPictures) =>
      w.(store := s.(mats := s.mats - lostMats, pictures := s.pictures - lostPictures))
  }

  ghost predicate LegalRun(libs: Libs, w: World, ops: seq<Op>)
    decreases |ops|
  {
    ops == [] || (Legal(w, ops[0]) && LegalRun(libs, Step(libs, w, ops[0]), ops[1..]))
  }

  ghost function Run(libs: Libs, w: World, ops: seq<Op>): World
    requires LegalRun(libs, w, ops)
    decreases |ops|
  {
    if ops == [] then w else Run(libs, Step(libs, w, ops[0]), ops[1..])
  }

  /** Everything named in the store was issued. */
  ghost predicate Named(s: Store, issued: set<Uuid>) {
    && ScanIds(s.scans) <= issued && s.mats.Keys <= issued && s.pictures <= issued
    && MatrixKeys(s.pages) <= issued && PictureKeys(s.pages) <= issued
  }

  ghost predicate Inv(w: World) {
    Consistent(w.store) && Named(w.store, w.issued)
  }

  lemma NamesAreFresh(w: World, op: Op)
    requires Inv(w) && Legal(w, op) && op.SaveOp?
    ensures FreshNames(w.store, op.row.id, op.inputs)
  {
    forall k | 0 <= k < |w.store.scans|
      ensures w.store.scans[k].id != op.row.id
    {
      IdOfScan(w.store.scans, k);
    }
    hide ScanIds, MatrixKeys, PictureKeys, KeysOfMatrices, KeysOfPictures, UniqueKeys, Numbered, UniqueScans;
  }

  lemma DeleteInv(w: World, id: Id, queryWorks: bool)
    requires Inv(w)
    ensures Inv(w.(store := Delete(w.store, id, queryWorks)))
  {
    DeleteKeeps(w.store, id, queryWorks);
    DeleteIs(w.store, id, queryWorks);
    hide Consistent, ScanIds, MatrixKeys, PictureKeys, Filter, Delete, PagesForScan;
  }

  lemma {:induction false} DeleteEachInv(w: World, rows: seq<ScanRow>, badQueries: set<Id>)
    requires Inv(w)
    ensures Inv(w.(store := DeleteEach(w.store, rows, badQueries)))
  {
    if rows != [] {
      var init, last := rows[..|rows| - 1], rows[|rows| - 1];
      DeleteEachInv(w, init, badQueries);
      DeleteInv(w.(store := DeleteEach(w.store, init, badQueries)), last.id, last.id !in badQueries);
      hide Inv, Delete;
    }
  }

  /** A load changes the store only by deleting the scan. */
  lemma LoadEffect(libs: Libs, s: Store, id: Id, queries: (bool, bool), unreadable: set<Key>)
    ensures var s' := Load(libs, s, id, queries, unreadable).store;
            s' == s || (queries.0 && s' == Delete(s, id, queries.1))
  {
    hide Delete, PagesForScan, AllReadable;
  }

  lemma StepInv(libs: Libs, w: World, op: Op)
    requires Inv(w) && Legal(w, op)
    ensures Inv(Step(libs, w, op))
  {
    hide Inv, Legal, Save, Load, Delete, DeleteEach, Filter, Leftover;
    match op {
      case SaveOp(_, _, _) =>
        SaveInv(libs, w, op);
      case LoadOp(id, queries, unreadable) =>
        LoadEffect(libs, w.store, id, queries, unreadable);
        DeleteInv(w, id, queries.1);
      case DeleteOp(id, queryWorks) =>
        DeleteInv(w, id, queryWorks);
      case PurgeOp(t, listWorks, badQueries) =>
        DeleteEachInv(w, if listWorks then Filter(CreatedBefore(t), w.store.scans) else [], badQueries);
      case LoseOp(lostMats, lostPictures) =>
        LoseInv(w, lostMats, lostPictures);
    }
  }

  lemma LoseInv(w: World, lostMats: set<Key>, lostPictures: set<Key>)
    requires Inv(w)
    ensures Inv(w.(store := w.store.(mats := w.store.mats - lostMats, pictures := w.store.pictures - lostPictures)))
  {
    hide UniqueKeys, Numbered, UniqueScans, PagesLive, ScanIds, MatrixKeys, PictureKeys;
  }

  lemma SaveInv(libs: Libs, w: World, op: Op)
    requires Inv(w) && Legal(w, op) && op.SaveOp?
    ensures Inv(Step(libs, w, op))
  {
    NamesAreFresh(w, op);
    var s, inputs := w.store, op.inputs;
    SaveKeeps(libs, s, op.row, op.rowInserted, inputs);
    var saving := Save(libs, s, op.row, op.rowInserted, inputs);
    if saving.result.Success? {
      SavedKeeps(libs, s, op.row, inputs);
      NamedSaved(s, saving.store, w.issued, op.row.id, KeysOfMatrices(inputs), KeysOfPictures(inputs));
    } else {
      LeftoverKey(libs, op.rowInserted, inputs);
      NamedFailed(s, saving.store, w.issued, Step(libs, w, op).issued, Leftover(libs, op.rowInserted, inputs));
    }
    hide Consistent, Named, KeysOfMatrices, KeysOfPictures, Save, Leftover, WithPages;
  }

  lemma LeftoverKey(libs: Libs, rowInserted: bool, inputs: seq<PageInput>)
    requires Encodable(inputs)
    ensures Leftover(libs, rowInserted, inputs) <= KeysOfMatrices(inputs) && |Leftover(libs, rowInserted, inputs)| <= 1
  {
    var n := SavedCount(libs, inputs);
    assert n < |inputs| ==> inputs[n] in inputs;
  }

  lemma NamedSaved(s: Store, s': Store, issued: set<Uuid>, id: Id, mats: set<Key>, pictures: set<Key>)
    requires Named(s, issued)
    requires ScanIds(s'.scans) == ScanIds(s.scans) + {id}
    requires MatrixKeys(s'.pages) == MatrixKeys(s.pages) + mats
             && PictureKeys(s'.pages) == PictureKeys(s.pages) + pictures
    requires s'.mats.Keys == s.mats.Keys + mats && s'.pictures == s.pictures + pictures
    ensures Named(s', issued + {id} + mats + pictures)
  {
    hide ScanIds, MatrixKeys, PictureKeys;
  }

  lemma NamedFailed(s: Store, s': Store, issued: set<Uuid>, issued': set<Uuid>, leftover: set<Key>)
    requires Named(s, issued) && issued + leftover <= issued'
    requires s'.scans == s.scans && s'.pages == s.pages && s'.pictures == s.pictures && s'.mats - leftover == s.mats
    ensures Named(s', issued')
  {
    hide ScanIds, MatrixKeys, PictureKeys;
    assert s'.mats.Keys <= s.mats.Keys + leftover by {
      forall key | key in s'.mats && key !in leftover ensures key in s.mats { assert key in s'.mats - leftover; }
    }
  }

  /** Over every run, whatever fails: page rows belong to live scans, no file key
      is shared by two rows, and the rows of each scan are numbered from 0. */
  lemma {:induction false} InvariantOverRuns(libs: Libs, w: World, ops: seq<Op>)
    requires Inv(w) && LegalRun(libs, w, ops)
    decreases |ops|
    ensures Inv(Run(libs, w, ops))
  {
    if ops != [] {
      StepInv(libs, w, ops[0]);
      InvariantOverRuns(libs, Step(libs, w, ops[0]), ops[1..]);
    }
  }
}
