/** What a caller of the scan store can rely on: stray files are counted, and a
    saved scan can be loaded until it is deleted or purged. */
module ScanStoreProofs {
  import opened Omr
  import opened Codecs
  import opened Permutations
  import opened Sequences
  import opened ScanStore
  import opened ScanStoreRows
  import opened ScanStoreRuns

  // ----- Stray files

  /** Files that no row refers to. */
  datatype Strays = Strays(mats: set<Key>, pictures: set<Key>) {
    function And(more: Strays): Strays { Strays(mats + more.mats, pictures + more.pictures) }

    function Without(lostMats: set<Key>, lostPictures: set<Key>): Strays { Strays(mats - lostMats, pictures - lostPictures) }
  }

  const NONE := Strays({}, {})

  ghost function StraysOf(s: Store): Strays { Strays(StrayMats(s), StrayPictures(s)) }

  /** A deletion leaves the files of its scan behind exactly when its page query fails. */
  ghost function LeftByDelete(s: Store, id: Id, queryWorks: bool): Strays {
    if queryWorks then NONE
    else
      var rows := Filter(RowOf(id), s.pages);
      Strays(MatrixKeys(rows) * s.mats.Keys, PictureKeys(rows) * s.pictures)
  }

  ghost function LeftByEach(s: Store, rows: seq<ScanRow>, badQueries: set<Id>): Strays {
    if rows == [] then NONE
    else
      var init, last := rows[..|rows| - 1], rows[|rows| - 1];
      LeftByEach(s, init, badQueries).And(LeftByDelete(DeleteEach(s, init, badQueries), last.id, last.id !in badQueries))
  }

  /** What an operation leaves behind: a save whose encoding failed one matrix, a deletion
      whose page query failed the files of its scan. */
  ghost function LeftBy(libs: Libs, s: Store, op: Op): Strays
    requires op.SaveOp? ==> Encodable(op.inputs)
  {
    match op
    case SaveOp(_, rowInserted, inputs) => Strays(Leftover(libs, rowInserted, inputs), {})
    case LoadOp(id, queries, unreadable) =>
      if Load(libs, s, id, queries, unreadable).store == s then NONE else LeftByDelete(s, id, queries.1)
    case DeleteOp(id, queryWorks) => LeftByDelete(s, id, queryWorks)
    case PurgeOp(t, listWorks, badQueries) =>
      LeftByEach(s, if listWorks then Filter(CreatedBefore(t), s.scans) else [], badQueries)
    case LoseOp(_, _) => NONE
  }

  lemma DeleteStrays(w: World, id: Id, queryWorks: bool)
    requires Inv(w)
    ensures StraysOf(Delete(w.store, id, queryWorks)) == StraysOf(w.store).And(LeftByDelete(w.store, id, queryWorks))
  {
    DeleteKeeps(w.store, id, queryWorks);
    hide Delete, Filter, StrayMats, StrayPictures, MatrixKeys, PictureKeys, Consistent;
  }

  lemma Collected(a: Strays, b: Strays, c: Strays)
    ensures a.And(b).And(c) == a.And(b.And(c)) && a.And(NONE) == a && a.Without({}, {}) == a
  {
    assert a.mats + b.mats + c.mats == a.mats + (b.mats + c.mats);
    assert a.pictures + b.pictures + c.pictures == a.pictures + (b.pictures + c.pictures);
  }

  lemma {:induction false} DeleteEachStrays(w: World, rows: seq<ScanRow>, bad: set<Id>)
    requires Inv(w)
    ensures StraysOf(DeleteEach(w.store, rows, bad)) == StraysOf(w.store).And(LeftByEach(w.store, rows, bad))
  {
    if rows == [] {
      Collected(StraysOf(w.store), NONE, NONE);
    } else {
      var init, last := rows[..|rows| - 1], rows[|rows| - 1];
      DeleteEachStrays(w, init, bad);
      DeleteEachInv(w, init, bad);
      var mid := w.(store := DeleteEach(w.store, init, bad));
      hide StraysOf, LeftByDelete, Delete, Inv;
      DeleteStrays(mid, last.id, last.id !in bad);
      Collected(StraysOf(w.store), LeftByEach(w.store, init, bad), LeftByDelete(mid.store, last.id, last.id !in bad));
    }
  }

  lemma SaveStrays(libs: Libs, w: World, op: Op)
    requires Inv(w) && Legal(w, op) && op.SaveOp?
    ensures StraysOf(Save(libs, w.store, op.row, op.rowInserted, op.inputs).store)
            == StraysOf(w.store).And(Strays(Leftover(libs, op.rowInserted, op.inputs), {}))
  {
    NamesAreFresh(w, op);
    SaveKeeps(libs, w.store, op.row, op.rowInserted, op.inputs);
    hide Save, Leftover, StrayMats, StrayPictures, Inv, Legal, Consistent;
  }

  lemma LoadStrays(libs: Libs, w: World, op: Op)
    requires Inv(w) && op.LoadOp?
    ensures StraysOf(Load(libs, w.store, op.id, op.queries, op.unreadable).store)
            == StraysOf(w.store).And(LeftBy(libs, w.store, op))
  {
    LoadEffect(libs, w.store, op.id, op.queries, op.unreadable);
    DeleteStrays(w, op.id, op.queries.1);
    hide Load, Delete, StraysOf, LeftByDelete, Inv;
    Collected(StraysOf(w.store), NONE, NONE);
  }

  lemma LoseStrays(s: Store, lostMats: set<Key>, lostPictures: set<Key>)
    ensures StraysOf(s.(mats := s.mats - lostMats, pictures := s.pictures - lostPictures))
            == StraysOf(s).Without(lostMats, lostPictures)
  {
    hide MatrixKeys, PictureKeys;
  }

  ghost function LostMats(op: Op): set<Key> { if op.LoseOp? then op.lostMats else {} }

  ghost function LostPictures(op: Op): set<Key> { if op.LoseOp? then op.lostPictures else {} }

  /** The exact effect of every operation on the stray files. */
  lemma StepStrays(libs: Libs, w: World, op: Op)
    requires Inv(w) && Legal(w, op)
    ensures StraysOf(Step(libs, w, op).store)
            == StraysOf(w.store).And(LeftBy(libs, w.store, op)).Without(LostMats(op), LostPictures(op))
  {
    assert op.SaveOp? ==> Encodable(op.inputs);
    hide StraysOf, Strays.And, Strays.Without, Leftover, Save, Load, Delete, DeleteEach, Inv, Legal, LeftByDelete, LeftByEach,
         Filter;
    if op.LoseOp? {
      Collected(StraysOf(w.store), NONE, NONE);
      LoseStrays(w.store, op.lostMats, op.lostPictures);
    } else {
      LeftStrays(libs, w, op);
      Collected(StraysOf(w.store).And(LeftBy(libs, w.store, op)), NONE, NONE);
    }
  }

  lemma LeftStrays(libs: Libs, w: World, op: Op)
    requires Inv(w) && Legal(w, op) && !op.LoseOp?
    ensures StraysOf(Step(libs, w, op).store) == StraysOf(w.store).And(LeftBy(libs, w.store, op))
  {
    assert op.SaveOp? ==> Encodable(op.inputs);
    hide StraysOf, Strays.And, Strays.Without, Leftover, Save, Load, Delete, DeleteEach, Inv, Legal, LeftByDelete, LeftByEach,
         Filter;
    match op {
      case SaveOp(_, _, _) => SaveStrays(libs, w, op);
      case LoadOp(_, _, _) => LoadStrays(libs, w, op);
      case DeleteOp(id, queryWorks) => DeleteStrays(w, id, queryWorks);
      case PurgeOp(t, listWorks, bad) =>
        DeleteEachStrays(w, if listWorks then Filter(CreatedBefore(t), w.store.scans) else [], bad);
    }
  }

  /** What a whole run leaves behind. */
  ghost function LeftByRun(libs: Libs, w: World, ops: seq<Op>): Strays
    requires LegalRun(libs, w, ops)
    decreases |ops|
  {
    if ops == [] then NONE
    else LeftBy(libs, w.store, ops[0]).And(LeftByRun(libs, Step(libs, w, ops[0]), ops[1..]))
  }

  /** Over every run, stray files are those there were before and those the operations
      left behind: all of these if no file was lost, else at most these. */
  lemma {:induction false} StraysAreAccounted(libs: Libs, w: World, ops: seq<Op>)
    requires Inv(w) && LegalRun(libs, w, ops)
    decreases |ops|
    ensures var after, all := StraysOf(Run(libs, w, ops).store), StraysOf(w.store).And(LeftByRun(libs, w, ops));
            && after.mats <= all.mats && after.pictures <= all.pictures
            && ((forall k :: 0 <= k < |ops| ==> !ops[k].LoseOp?) ==> after == all)
  {
    if ops == [] {
      Collected(StraysOf(w.store), NONE, NONE);
    } else {
      var op, w1 := ops[0], Step(libs, w, ops[0]);
      StepInv(libs, w, op);
      StepStrays(libs, w, op);
      StraysAreAccounted(libs, w1, ops[1..]);
      hide Step, StraysOf, LeftBy, Inv, Legal;
      Collected(StraysOf(w.store), LeftBy(libs, w.store, op), LeftByRun(libs, w1, ops[1..]));
      Collected(StraysOf(w.store).And(LeftBy(libs, w.store, op)), NONE, NONE);
    }
  }

  /** The page query that finds the files to delete works. */
  predicate QueryWorks(op: Op) {
    match op
    case LoadOp(_, queries, _) => queries.1
    case DeleteOp(_, queryWorks) => queryWorks
    case PurgeOp(_, _, badQueries) => badQueries == {}
    case _ => true
  }

  /** Then only a save leaves anything behind. */
  ghost function Added(libs: Libs, op: Op): set<Key>
    requires op.SaveOp? ==> Encodable(op.inputs)
  {
    if op.SaveOp? then Leftover(libs, op.rowInserted, op.inputs) else {}
  }

  lemma {:induction false} NothingLeftByEach(s: Store, rows: seq<ScanRow>)
    ensures LeftByEach(s, rows, {}) == NONE
  {
    if rows != [] { NothingLeftByEach(s, rows[..|rows| - 1]); }
  }

  lemma OnlySavesLeave(libs: Libs, s: Store, op: Op)
    requires QueryWorks(op) && (op.SaveOp? ==> Encodable(op.inputs))
    ensures LeftBy(libs, s, op) == Strays(Added(libs, op), {})
  {
    if op.PurgeOp? {
      NothingLeftByEach(s, if op.listWorks then Filter(CreatedBefore(op.t), s.scans) else []);
    }
    hide Leftover, Load, Filter, LeftByEach;
  }

  lemma AtMostOneMore(before: set<Key>, added: set<Key>, removed: set<Key>)
    ensures |before + added - removed| <= |before| + |added|
  {
    SubsetCardinality(before + added - removed, before + added);
  }

  /** Over every run whose deletions can list the pages, no picture file becomes a
      stray, and at most one matrix file does for every save that created a file
      and failed to encode into it. */
  lemma {:induction false} StraysOverRuns(libs: Libs, w: World, ops: seq<Op>)
    requires Inv(w) && LegalRun(libs, w, ops)
    requires forall k :: 0 <= k < |ops| ==> QueryWorks(ops[k])
    decreases |ops|
    ensures var w' := Run(libs, w, ops);
            && StrayPictures(w'.store) <= StrayPictures(w.store)
            && w.failedEncodings <= w'.failedEncodings
            && |StrayMats(w'.store)| <= |StrayMats(w.store)| + w'.failedEncodings - w.failedEncodings
  {
    if ops != [] {
      var op, w1 := ops[0], Step(libs, w, ops[0]);
      StepInv(libs, w, op);
      StepStrays(libs, w, op);
      OnlySavesLeave(libs, w.store, op);
      StraysOverRuns(libs, w1, ops[1..]);
      AtMostOneMore(StrayMats(w.store), Added(libs, op), LostMats(op));
      CountedByStep(libs, w, op);
      hide Step, StrayMats, StrayPictures, Added, LeftBy, LostMats, Inv, Legal;
    }
  }

  lemma CountedByStep(libs: Libs, w: World, op: Op)
    requires Legal(w, op)
    ensures Step(libs, w, op).failedEncodings == w.failedEncodings + |Added(libs, op)|
  {
    hide Leftover, Save, Load, Delete, Purge;
  }

  /** From an empty store: every picture file is referenced, and all matrix files
      but one for each failed encoding. */
  lemma EveryFileIsReferenced(libs: Libs, ops: seq<Op>)
    requires var w := World(Store([], [], map[], {}), {}, 0);
             LegalRun(libs, w, ops) && forall k :: 0 <= k < |ops| ==> QueryWorks(ops[k])
    ensures var w := Run(libs, World(Store([], [], map[], {}), {}, 0), ops);
            StrayPictures(w.store) == {} && |StrayMats(w.store)| <= w.failedEncodings
  {
    StraysOverRuns(libs, World(Store([], [], map[], {}), {}, 0), ops);
  }

  /** Without that hypothesis files do become strays: deleting a scan whose page query
      fails leaves no file behind if and only if the scan had none, neither a matrix
      nor a picture. */
  lemma FailedQueryLeaksExactly(w: World, id: Id)
    requires Inv(w)
    ensures var rows := Filter(RowOf(id), w.store.pages);
            StraysOf(Delete(w.store, id, false)) == StraysOf(w.store)
            <==> MatrixKeys(rows) !! w.store.mats.Keys && PictureKeys(rows) !! w.store.pictures
  {
    var rows := Filter(RowOf(id), w.store.pages);
    DeleteKeeps(w.store, id, false);
    KeysSplit(w.store.pages, id);
    assert StrayMats(w.store) !! MatrixKeys(rows) && StrayPictures(w.store) !! PictureKeys(rows);
    hide Delete, Filter, Consistent, Named, StrayMats, StrayPictures, MatrixKeys, PictureKeys;
    NothingNew(StrayMats(w.store), MatrixKeys(rows), w.store.mats.Keys);
    NothingNew(StrayPictures(w.store), PictureKeys(rows), w.store.pictures);
  }

  lemma NothingNew(strays: set<Key>, keys: set<Key>, files: set<Key>)
    requires strays !! keys
    ensures strays + keys * files == strays <==> keys !! files
  {
    if strays + keys * files == strays {
      forall key | key in keys
        ensures key !in files
      {
        assert key in files ==> key in strays + keys * files;
      }
    }
  }

  // ----- A saved scan

  /** The scan is there: its row, and a readable file for each page, in order. */
  ghost predicate Holds(libs: Libs, s: Store, row: ScanRow, saved: seq<Matrix>) {
    var rows := Filter(RowOf(row.id), s.pages);
    && row in s.scans && |rows| == |saved|
    && forall k :: 0 <= k < |rows| ==>
         rows[k].matrixKey in s.mats && FromM4t(libs, s.mats[rows[k].matrixKey]) == Success(saved[k].(kind := Gray))
  }

  ghost predicate Gone(s: Store, id: Id) {
    Filter(RowOf(id), s.pages) == [] && id !in ScanIds(s.scans)
  }

  function AsGray(saved: seq<Matrix>): seq<Matrix> {
    seq(|saved|, k requires 0 <= k < |saved| => saved[k].(kind := Gray))
  }

  /** What loading returns for a scan that is there, and for one that is gone. */
  lemma LoadHeld(libs: Libs, s: Store, row: ScanRow, saved: seq<Matrix>, again: bool)
    requires Numbered(s.pages) && Holds(libs, s, row, saved) && saved != []
    ensures Load(libs, s, row.id, (true, again), {}) == Loading(s, Success(AsGray(saved)))
  {
    var rows := Filter(RowOf(row.id), s.pages);
    OrderedQuery(s, row.id);
    RowsReadable(libs, s, rows, saved);
    assert rows != [];
    hide PagesForScan, Filter, FromM4t, Holds, Numbered, AllReadable, Matrices, AsGray;
  }

  lemma RowsReadable(libs: Libs, s: Store, rows: seq<PageRow>, saved: seq<Matrix>)
    requires |rows| == |saved|
    requires forall k :: 0 <= k < |rows| ==>
               rows[k].matrixKey in s.mats && FromM4t(libs, s.mats[rows[k].matrixKey]) == Success(saved[k].(kind := Gray))
    ensures AllReadable(libs, s, rows, {}) && Matrices(libs, s, rows, {}) == AsGray(saved)
  {
    hide FromM4t;
    assert AllReadable(libs, s, rows, {});
  }

  lemma LoadGone(libs: Libs, s: Store, id: Id, again: bool, unreadable: set<Key>)
    requires Numbered(s.pages) && Gone(s, id)
    ensures Load(libs, s, id, (true, again), unreadable) == Loading(s, Failure(ErrNotFound))
  {
    OrderedQuery(s, id);
  }

  /** The file of a row can be opened and decoded. */
  predicate Opens(libs: Libs, s: Store, unreadable: set<Key>, row: PageRow) {
    row.matrixKey in s.mats && row.matrixKey !in unreadable && FromM4t(libs, s.mats[row.matrixKey]).Success?
  }

  /** Loading returns what the file of every page decodes to, in the order of the pages, if
      and only if there is a page and every file can be opened and decoded. Otherwise it
      returns ErrNotFound, and the scan is gone afterwards. */
  lemma LoadAllOrNothing(libs: Libs, w: World, id: Id, again: bool, unreadable: set<Key>)
    requires Inv(w)
    ensures var s, rows, loading := w.store, Filter(RowOf(id), w.store.pages), Load(libs, w.store, id, (true, again), unreadable);
            && (forall k :: 0 <= k < |rows| ==> rows[k].index == k)
            && if rows != [] && forall k :: 0 <= k < |rows| ==> Opens(libs, s, unreadable, rows[k]) then
                 && loading.store == s && loading.result.Success? && |loading.result.value| == |rows|
                 && forall k :: 0 <= k < |rows| ==>
                      FromM4t(libs, s.mats[rows[k].matrixKey]) == Success(loading.result.value[k])
               else
                 loading.result == Failure(ErrNotFound) && if rows == [] then loading.store == s else Gone(loading.store, id)
  {
    hide Load, Delete, PagesForScan, Filter, Numbered, UniqueKeys, UniqueScans, PagesLive, FromM4t;
    OrderedQuery(w.store, id);
    DeleteKeeps(w.store, id, again);
    LoadCases(libs, w.store, id, again, unreadable);
    RowsNumbered(w.store.pages, id);
  }

  lemma RowsNumbered(pages: seq<PageRow>, id: Id)
    requires Numbered(pages)
    ensures forall k :: 0 <= k < |Filter(RowOf(id), pages)| ==> Filter(RowOf(id), pages)[k].index == k
  {
    hide Filter;
  }

  lemma LoadCases(libs: Libs, s: Store, id: Id, again: bool, unreadable: set<Key>)
    ensures var rows, loading := PagesForScan(s, id), Load(libs, s, id, (true, again), unreadable);
            if rows != [] && forall k :: 0 <= k < |rows| ==> Opens(libs, s, unreadable, rows[k]) then
              && loading.store == s && loading.result.Success? && |loading.result.value| == |rows|
              && forall k :: 0 <= k < |rows| ==> FromM4t(libs, s.mats[rows[k].matrixKey]) == Success(loading.result.value[k])
            else
              loading == Loading(if rows == [] then s else Delete(s, id, again), Failure(ErrNotFound))
  {
    hide PagesForScan, Delete, FromM4t;
    var rows := PagesForScan(s, id);
    forall k | 0 <= k < |rows|
      ensures Opens(libs, s, unreadable, rows[k]) <==> GetMatrix(libs, s, rows[k].matrixKey, unreadable).Some?
    {
    }
  }

  /** A load whose first query fails finds nothing out, and changes nothing. */
  lemma LoadFails(libs: Libs, s: Store, id: Id, again: bool, unreadable: set<Key>)
    ensures Load(libs, s, id, (false, again), unreadable) == Loading(s, Failure(ErrDatabaseRead))
  {
  }

  // ----- What a deletion removes, row by row and file by file

  /** A page of the scan has the matrix, or the picture, of this key. */
  predicate OwnsMatrix(pages: seq<PageRow>, id: Id, key: Key) {
    exists r :: r in pages && r.scanId == id && r.matrixKey == key
  }

  predicate OwnsPicture(pages: seq<PageRow>, id: Id, key: Key) {
    exists r :: r in pages && r.scanId == id && r.pictureKey == key
  }

  lemma KeyInPages(pages: seq<PageRow>, id: Id, rows: seq<PageRow>, key: Key)
    requires forall r :: r in rows <==> r in pages && r.scanId == id
    ensures key in MatrixKeys(rows) <==> OwnsMatrix(pages, id, key)
    ensures key in PictureKeys(rows) <==> OwnsPicture(pages, id, key)
  {
    if key in MatrixKeys(rows) { KeyHasRow(rows, key); }
    if key in PictureKeys(rows) { PictureHasRow(rows, key); }
    if OwnsMatrix(pages, id, key) {
      var r :| r in pages && r.scanId == id && r.matrixKey == key;
      RowKeyIn(rows, r);
    }
    if OwnsPicture(pages, id, key) {
      var r :| r in pages && r.scanId == id && r.pictureKey == key;
      RowKeyIn(rows, r);
    }
    hide MatrixKeys, PictureKeys;
  }

  lemma RowKeyIn(rows: seq<PageRow>, r: PageRow)
    requires r in rows
    ensures r.matrixKey in MatrixKeys(rows) && r.pictureKey in PictureKeys(rows)
  {
    var k :| 0 <= k < |rows| && rows[k] == r;
    KeyOfRow(rows, k);
  }

  lemma {:induction false} FilteredCount(pages: seq<PageRow>, id: Id, r: PageRow)
    requires r.scanId == id
    ensures multiset(Filter(RowOf(id), pages))[r] == multiset(pages)[r]
  {
    if pages != [] {
      var n := |pages| - 1;
      assert pages == pages[..n] + [pages[n]];
      FilteredCount(pages[..n], id, r);
    }
  }

  /** Whatever the store holds, the query finds each page row of the scan as often as it is
      there, none with a smaller index than one before it. */
  lemma QueriedRows(s: Store, id: Id)
    ensures forall r :: r in PagesForScan(s, id) <==> r in s.pages && r.scanId == id
    ensures forall r: PageRow :: r.scanId == id ==> multiset(PagesForScan(s, id))[r] == multiset(s.pages)[r]
    ensures forall k :: 0 < k < |PagesForScan(s, id)| ==> PagesForScan(s, id)[k - 1].index <= PagesForScan(s, id)[k].index
  {
    forall r: PageRow | r.scanId == id
      ensures multiset(PagesForScan(s, id))[r] == multiset(s.pages)[r]
    {
      FilteredCount(s.pages, id, r);
      hide Filter, PagesForScan;
    }
    forall r
      ensures r in PagesForScan(s, id) <==> r in s.pages && r.scanId == id
    {
      FilterMember(RowOf(id), s.pages, r);
      assert r in multiset(PagesForScan(s, id)) <==> r in multiset(Filter(RowOf(id), s.pages));
      hide Filter, PagesForScan;
    }
  }

  /** A deletion removes the row of the scan and its page rows, and, if it can list them,
      their files; every other row and file stays. */
  lemma DeletesExactly(s: Store, id: Id, queryWorks: bool)
    ensures var s' := Delete(s, id, queryWorks);
            && (forall x :: x in s'.scans <==> x in s.scans && x.id != id)
            && (forall r :: r in s'.pages <==> r in s.pages && r.scanId != id)
            && (forall key :: key in s'.mats <==>
                  key in s.mats && !(queryWorks && OwnsMatrix(s.pages, id, key)))
            && (forall key :: key in s'.mats ==> s'.mats[key] == s.mats[key])
            && (forall key :: key in s'.pictures <==>
                  key in s.pictures && !(queryWorks && OwnsPicture(s.pages, id, key)))
  {
    QueriedRows(s, id);
    forall key
      ensures key in MatrixKeys(PagesForScan(s, id)) <==> OwnsMatrix(s.pages, id, key)
      ensures key in PictureKeys(PagesForScan(s, id)) <==> OwnsPicture(s.pages, id, key)
    {
      KeyInPages(s.pages, id, PagesForScan(s, id), key);
    }
    forall x
      ensures x in Filter(ScanNot(id), s.scans) <==> x in s.scans && x.id != id
    {
      FilterMember(ScanNot(id), s.scans, x);
    }
    forall r
      ensures r in Filter(RowNotOf(id), s.pages) <==> r in s.pages && r.scanId != id
    {
      FilterMember(RowNotOf(id), s.pages, r);
    }
    DeleteIs(s, id, queryWorks);
    hide Filter, PagesForScan, MatrixKeys, PictureKeys, Delete, OwnsMatrix, OwnsPicture;
  }

  // ----- How a save fails

  /** The error of a page that cannot be saved, and the file it leaves half written. */
  function Failing(i: PageInput): (StoreError, Option<seq<Byte>>) {
    match i.fault
    case MatrixNotCreated => (ErrFileStorageWrite, None)
    case MatrixNotEncoded(partial) => (ErrFileStorageWrite, Some(if i.page.kind.Unknown? then [] else partial))
    case _ =>
      if i.page.kind.Unknown? then (ErrFileStorageWrite, Some([]))
      else if i.fault.PictureNotCreated? then (ErrFileStorageWrite, None)
      else if i.fault.PictureNotEncoded? then (ErrEncodingImage, None)
      else (ErrDatabaseWrite, None)
  }

  /** The first page that cannot be saved decides the error of the save, and leaves at
      most its own matrix file. */
  lemma SaveFailsExactly(libs: Libs, s: Store, row: ScanRow, inputs: seq<PageInput>, n: nat)
    requires Encodable(inputs) && n < |inputs|
    requires forall k :: 0 <= k < n ==> inputs[k].fault.NoFault? && inputs[k].page.kind != Unknown
    requires !inputs[n].fault.NoFault? || inputs[n].page.kind == Unknown
    ensures var (error, partial) := Failing(inputs[n]);
            Save(libs, s, row, true, inputs)
            == Saving(match partial
                      case None => s
                      case Some(bytes) => s.(mats := s.mats[inputs[n].matrixKey := bytes]), Failure(error))
    ensures Save(libs, s, row, false, inputs) == Saving(s, Failure(ErrDatabaseWrite))
  {
    forall k | 0 <= k <= n
      ensures Outcome(libs, inputs[k]).Saved? <==> k < n
    {
      PageSavedExactly(libs, inputs[k]);
    }
    OutcomeFails(libs, inputs[n]);
    assert SavedCount(libs, inputs) == n;
    hide Outcome, SavedCount, WithPages, Failing;
  }

  lemma OutcomeFails(libs: Libs, i: PageInput)
    requires Int32Header(i.page) && (!i.fault.NoFault? || i.page.kind == Unknown)
    ensures Outcome(libs, i) == Failed(Failing(i).0, Failing(i).1)
  {
  }

  lemma PageSavedExactly(libs: Libs, i: PageInput)
    requires Int32Header(i.page)
    ensures Outcome(libs, i).Saved? <==> i.fault.NoFault? && i.page.kind != Unknown
  {
  }

  /** A save succeeds exactly when nothing fails and every page is gray or binary. */
  lemma SaveSucceedsExactly(libs: Libs, s: Store, row: ScanRow, rowInserted: bool, inputs: seq<PageInput>)
    requires Encodable(inputs)
    ensures Save(libs, s, row, rowInserted, inputs).result.Success?
            <==> rowInserted && forall k :: 0 <= k < |inputs| ==> inputs[k].fault.NoFault? && inputs[k].page.kind != Unknown
  {
    var n := SavedCount(libs, inputs);
    forall k | 0 <= k < |inputs|
      ensures Outcome(libs, inputs[k]).Saved? <==> inputs[k].fault.NoFault? && inputs[k].page.kind != Unknown
    {
      PageSavedExactly(libs, inputs[k]);
    }
    hide SavedCount, WithPages, Outcome;
  }

  lemma {:induction false} FileOf(libs: Libs, inputs: seq<PageInput>, k: nat)
    requires AllSaved(libs, inputs) && k < |inputs|
    requires forall i, j :: 0 <= i < j < |inputs| ==> inputs[i].matrixKey != inputs[j].matrixKey
    ensures inputs[k].matrixKey in Files(libs, inputs)
            && Files(libs, inputs)[inputs[k].matrixKey] == Outcome(libs, inputs[k]).file
  {
    if k < |inputs| - 1 {
      FileOf(libs, inputs[..|inputs| - 1], k);
    }
  }

  lemma FilesDecode(libs: Libs, inputs: seq<PageInput>, k: nat)
    requires libs.Lawful() && AllSaved(libs, inputs) && k < |inputs| && Storable(inputs[k].page)
    requires forall i, j :: 0 <= i < j < |inputs| ==> inputs[i].matrixKey != inputs[j].matrixKey
    ensures inputs[k].matrixKey in Files(libs, inputs)
            && FromM4t(libs, Files(libs, inputs)[inputs[k].matrixKey]) == Success(inputs[k].page.(kind := Gray))
  {
    FileOf(libs, inputs, k);
    OutcomeDecodes(libs, inputs[k]);
    hide FromM4t, Files, Outcome, Storable, Libs.Lawful;
  }

  lemma OutcomeDecodes(libs: Libs, i: PageInput)
    requires libs.Lawful() && Storable(i.page) && Outcome(libs, i).Saved?
    ensures FromM4t(libs, Outcome(libs, i).file) == Success(i.page.(kind := Gray))
  {
    M4tRoundTrip(libs, i.page);
    SavedIsEncoded(libs, i);
    hide *;
  }

  lemma SavedIsEncoded(libs: Libs, i: PageInput)
    requires Int32Header(i.page) && Outcome(libs, i).Saved?
    ensures M4t(libs, i.page) == Success(Outcome(libs, i).file)
  {
    hide M4t;
  }

  function PagesOf(inputs: seq<PageInput>): seq<Matrix> {
    seq(|inputs|, k requires 0 <= k < |inputs| => inputs[k].page)
  }

  /** A successful save of gray or binary pages puts the scan there. */
  lemma SaveHolds(libs: Libs, s: Store, row: ScanRow, inputs: seq<PageInput>)
    requires libs.Lawful() && Consistent(s) && FreshNames(s, row.id, inputs) && AllSaved(libs, inputs)
    requires forall k :: 0 <= k < |inputs| ==> Storable(inputs[k].page)
    ensures Holds(libs, WithPages(libs, s.(scans := s.scans + [row]), row.id, inputs), row, PagesOf(inputs))
  {
    var s' := WithPages(libs, s.(scans := s.scans + [row]), row.id, inputs);
    SavedKeeps(libs, s, row, inputs);
    forall k | 0 <= k < |inputs|
      ensures inputs[k].matrixKey in s'.mats
              && FromM4t(libs, s'.mats[inputs[k].matrixKey]) == Success(inputs[k].page.(kind := Gray))
    {
      FilesDecode(libs, inputs, k);
      hide FromM4t, Files, Storable, Libs.Lawful;
    }
    assert s'.scans[|s.scans|] == row;
    hide *;
    HoldsByRows(libs, s', row, inputs);
  }

  lemma HoldsByRows(libs: Libs, s: Store, row: ScanRow, inputs: seq<PageInput>)
    requires row in s.scans && Filter(RowOf(row.id), s.pages) == PageRows(row.id, inputs)
    requires forall k :: 0 <= k < |inputs| ==>
               && inputs[k].matrixKey in s.mats
               && FromM4t(libs, s.mats[inputs[k].matrixKey]) == Success(inputs[k].page.(kind := Gray))
    ensures Holds(libs, s, row, PagesOf(inputs))
  {
    hide Filter, FromM4t;
  }

  // ----- A saved scan over all runs

  /** Nothing from outside makes files unreadable. */
  predicate NoFileLoss(op: Op) {
    !op.LoseOp? && (op.LoadOp? ==> op.unreadable == {})
  }

  /** The operation deletes the scan, or purges scans created after it. */
  predicate Removes(op: Op, row: ScanRow) {
    match op
    case DeleteOp(id, _) => id == row.id
    case PurgeOp(t, listWorks, _) => listWorks && row.createdAt < t
    case _ => false
  }

  /** Rows of the scan and their files are the same in both stores. */
  ghost predicate Untouched(s: Store, s': Store, row: ScanRow) {
    && (row in s.scans ==> row in s'.scans)
    && Filter(RowOf(row.id), s'.pages) == Filter(RowOf(row.id), s.pages)
    && forall k :: 0 <= k < |Filter(RowOf(row.id), s.pages)| ==>
         var key := Filter(RowOf(row.id), s.pages)[k].matrixKey;
         key in s.mats ==> key in s'.mats && s'.mats[key] == s.mats[key]
  }

  lemma UntouchedHolds(libs: Libs, s: Store, s': Store, row: ScanRow, saved: seq<Matrix>)
    requires Holds(libs, s, row, saved) && Untouched(s, s', row)
    ensures Holds(libs, s', row, saved)
  {
    hide FromM4t, Filter;
  }

  lemma {:induction false} KeyOfFiltered(pages: seq<PageRow>, id: Id, k: nat)
    requires k < |Filter(RowOf(id), pages)|
    ensures Filter(RowOf(id), pages)[k].matrixKey in MatrixKeys(pages)
    decreases |pages|
  {
    var init := pages[..|pages| - 1];
    if k < |Filter(RowOf(id), init)| {
      KeyOfFiltered(init, id, k);
    }
  }

  /** Deleting one scan removes it and leaves the others untouched. */
  lemma DeleteOther(s: Store, id: Id, queryWorks: bool, row: ScanRow)
    requires Consistent(s) && id != row.id
    ensures Untouched(s, Delete(s, id, queryWorks), row)
  {
    var s' := Delete(s, id, queryWorks);
    DeleteKeeps(s, id, queryWorks);
    OrderedQuery(s, id);
    DeleteIs(s, id, queryWorks);
    FilterMember(ScanNot(id), s.scans, row);
    var rows := Filter(RowOf(row.id), s.pages);
    assert Filter(RowOf(row.id), s'.pages) == rows;
    forall k | 0 <= k < |rows|
      ensures rows[k].matrixKey !in MatrixKeys(Filter(RowOf(id), s.pages))
    {
      KeyOfFiltered(s'.pages, row.id, k);
      hide *;
    }
    hide Filter, MatrixKeys, PictureKeys, Delete, PagesForScan, Consistent, ScanIds;
  }

  lemma DeleteSelf(s: Store, id: Id, queryWorks: bool)
    requires Consistent(s)
    ensures Gone(Delete(s, id, queryWorks), id)
  {
    DeleteKeeps(s, id, queryWorks);
    hide Filter, MatrixKeys, PictureKeys, Delete, Consistent, ScanIds;
  }

  lemma DeleteGone(s: Store, id: Id, queryWorks: bool, gone: Id)
    requires Consistent(s) && Gone(s, gone)
    ensures Gone(Delete(s, id, queryWorks), gone)
  {
    DeleteKeeps(s, id, queryWorks);
    hide Filter, MatrixKeys, PictureKeys, Delete, Consistent, ScanIds;
  }

  /** The scan as a deletion leaves it. */
  lemma DeleteNext(libs: Libs, s: Store, id: Id, queryWorks: bool, row: ScanRow, saved: seq<Matrix>)
    requires Consistent(s)
    ensures Gone(s, row.id) ==> Gone(Delete(s, id, queryWorks), row.id)
    ensures Holds(libs, s, row, saved) ==>
              if id == row.id then Gone(Delete(s, id, queryWorks), row.id) else Holds(libs, Delete(s, id, queryWorks), row, saved)
  {
    hide Gone, Holds, Untouched, Delete, Consistent;
    if Gone(s, row.id) {
      DeleteGone(s, id, queryWorks, row.id);
    }
    if Holds(libs, s, row, saved) {
      if id == row.id {
        DeleteSelf(s, id, queryWorks);
      } else {
        DeleteOther(s, id, queryWorks, row);
        UntouchedHolds(libs, s, Delete(s, id, queryWorks), row, saved);
      }
    }
  }

  predicate Lists(rows: seq<ScanRow>, id: Id) {
    rows != [] && (rows[|rows| - 1].id == id || Lists(rows[..|rows| - 1], id))
  }

  lemma {:induction false} ListsExactly(rows: seq<ScanRow>, id: Id)
    ensures Lists(rows, id) <==> exists k :: 0 <= k < |rows| && rows[k].id == id
  {
    if rows != [] {
      ListsExactly(rows[..|rows| - 1], id);
      assert forall k :: 0 <= k < |rows| - 1 ==> rows[k] == rows[..|rows| - 1][k];
    }
  }

  /** The listed scans are gone afterwards; any other is as before. */
  lemma {:induction false} DeleteEachOthers(libs: Libs, w: World, rows: seq<ScanRow>, bad: set<Id>, row: ScanRow,
                                            saved: seq<Matrix>)
    requires Inv(w) && Holds(libs, w.store, row, saved)
    ensures var s' := DeleteEach(w.store, rows, bad);
            if Lists(rows, row.id) then Gone(s', row.id) else Holds(libs, s', row, saved)
  {
    if rows != [] {
      var init, last := rows[..|rows| - 1], rows[|rows| - 1];
      DeleteEachOthers(libs, w, init, bad, row, saved);
      DeleteEachInv(w, init, bad);
      DeleteNext(libs, DeleteEach(w.store, init, bad), last.id, last.id !in bad, row, saved);
      hide Gone, Holds, Delete, Consistent, Named;
    }
  }

  lemma {:induction false} ScanWithId(scans: seq<ScanRow>, row: ScanRow, other: ScanRow)
    requires UniqueScans(scans) && row in scans && other in scans && row.id == other.id
    ensures row == other
  {
    var init, last := scans[..|scans| - 1], scans[|scans| - 1];
    assert scans == init + [last];
    if row in init && other in init {
      ScanWithId(init, row, other);
    } else if row in init {
      var k :| 0 <= k < |init| && init[k] == row;
      IdOfScan(init, k);
    } else if other in init {
      var k :| 0 <= k < |init| && init[k] == other;
      IdOfScan(init, k);
    }
  }

  /** The purge lists exactly the scans created before its time. */
  lemma PurgeLists(scans: seq<ScanRow>, t: int, row: ScanRow)
    requires UniqueScans(scans) && row in scans
    ensures var listed := Filter(CreatedBefore(t), scans);
            Lists(listed, row.id) <==> row.createdAt < t
  {
    var listed := Filter(CreatedBefore(t), scans);
    ListsExactly(listed, row.id);
    FilterMember(CreatedBefore(t), scans, row);
    if k :| 0 <= k < |listed| && listed[k].id == row.id {
      FilterMember(CreatedBefore(t), scans, listed[k]);
      assert listed[k] in listed;
      ScanWithId(scans, row, listed[k]);
    }
    if row in listed {
      var k :| 0 <= k < |listed| && listed[k] == row;
    }
    hide Filter, UniqueScans, Lists;
  }

  lemma PurgeHolds(libs: Libs, w: World, t: int, listWorks: bool, bad: set<Id>, row: ScanRow, saved: seq<Matrix>)
    requires Inv(w) && Holds(libs, w.store, row, saved)
    ensures var s' := Purge(w.store, t, listWorks, bad);
            if listWorks && row.createdAt < t then Gone(s', row.id) else Holds(libs, s', row, saved)
  {
    PurgeLists(w.store.scans, t, row);
    DeleteEachOthers(libs, w, if listWorks then Filter(CreatedBefore(t), w.store.scans) else [], bad, row, saved);
    hide Filter, DeleteEach, Inv, Gone, Holds;
  }

  /** The file keys of a scan are not among the fresh ones of a save. */
  lemma KeysNotFresh(w: World, op: Op, id: Id)
    requires Inv(w) && Legal(w, op) && op.SaveOp?
    ensures forall k :: 0 <= k < |Filter(RowOf(id), w.store.pages)| ==>
              Filter(RowOf(id), w.store.pages)[k].matrixKey !in KeysOfMatrices(op.inputs)
  {
    var rows := Filter(RowOf(id), w.store.pages);
    forall k | 0 <= k < |rows|
      ensures rows[k].matrixKey !in KeysOfMatrices(op.inputs)
    {
      KeyOfFiltered(w.store.pages, id, k);
    }
    hide Filter, KeysOfMatrices, KeysOfPictures, MatrixKeys, PictureKeys, ScanIds, Consistent;
  }

  /** A save under other names leaves the scan untouched. */
  lemma SaveOther(libs: Libs, w: World, op: Op, row: ScanRow, saved: seq<Matrix>)
    requires Inv(w) && Legal(w, op) && op.SaveOp? && Holds(libs, w.store, row, saved) && row.id in w.issued
    ensures Untouched(w.store, Save(libs, w.store, op.row, op.rowInserted, op.inputs).store, row)
  {
    var s, inputs := w.store, op.inputs;
    NamesAreFresh(w, op);
    SaveKeeps(libs, s, op.row, op.rowInserted, inputs);
    KeysNotFresh(w, op, row.id);
    var saving := Save(libs, s, op.row, op.rowInserted, inputs);
    assert op.row.id != row.id;
    if saving.result.Success? {
      SavedKeeps(libs, s, op.row, inputs);
      SavedUntouched(libs, s, op.row, inputs, row);
    } else {
      FailedKeepsFiles(s.mats, saving.store.mats, Leftover(libs, op.rowInserted, inputs));
      FailedUntouched(s, saving.store, row);
    }
    hide *;
  }

  lemma SavedUntouched(libs: Libs, s: Store, added: ScanRow, inputs: seq<PageInput>, row: ScanRow)
    requires AllSaved(libs, inputs)
    requires var s' := WithPages(libs, s.(scans := s.scans + [added]), added.id, inputs);
             Filter(RowOf(row.id), s'.pages) == Filter(RowOf(row.id), s.pages)
    requires forall k :: 0 <= k < |Filter(RowOf(row.id), s.pages)| ==>
               Filter(RowOf(row.id), s.pages)[k].matrixKey !in KeysOfMatrices(inputs)
    ensures Untouched(s, WithPages(libs, s.(scans := s.scans + [added]), added.id, inputs), row)
  {
    hide Filter, Files, AllSaved, KeysOfMatrices, KeysOfPictures, PageRows;
  }

  lemma FailedUntouched(s: Store, s': Store, row: ScanRow)
    requires s'.scans == s.scans && s'.pages == s.pages
    requires forall key :: key in s.mats ==> key in s'.mats && s'.mats[key] == s.mats[key]
    ensures Untouched(s, s', row)
  {
    hide Filter;
  }

  lemma FailedKeepsFiles(mats: map<Key, seq<Byte>>, mats': map<Key, seq<Byte>>, leftover: set<Key>)
    requires mats' - leftover == mats
    ensures forall key :: key in mats ==> key in mats' && mats'[key] == mats[key]
  {
    forall key | key in mats
      ensures key in mats' && mats'[key] == mats[key]
    {
      assert key in mats' - leftover;
    }
  }

  /** Loading a scan that is there changes nothing; loading another one may delete
      that one. */
  lemma LoadKeeps(libs: Libs, w: World, id: Id, queries: (bool, bool), row: ScanRow, saved: seq<Matrix>)
    requires Inv(w) && Holds(libs, w.store, row, saved) && saved != []
    ensures Holds(libs, Load(libs, w.store, id, queries, {}).store, row, saved)
  {
    if id == row.id {
      if queries.0 {
        LoadHeld(libs, w.store, row, saved, queries.1);
      }
    } else {
      LoadEffect(libs, w.store, id, queries, {});
      DeleteOther(w.store, id, queries.1, row);
      UntouchedHolds(libs, w.store, Delete(w.store, id, queries.1), row, saved);
    }
    hide Holds, Delete, PagesForScan, AllReadable, Matrices, Untouched, Numbered, UniqueKeys, UniqueScans, PagesLive,
         Named;
  }

  /** One operation: the scan is gone if it is removed, and there otherwise. */
  lemma StepHolds(libs: Libs, w: World, op: Op, row: ScanRow, saved: seq<Matrix>)
    requires Inv(w) && Legal(w, op) && NoFileLoss(op)
    requires Holds(libs, w.store, row, saved) && saved != [] && row.id in w.issued
    ensures var s' := Step(libs, w, op).store;
            if Removes(op, row) then Gone(s', row.id) else Holds(libs, s', row, saved)
  {
    match op {
      case SaveOp(r, rowInserted, inputs) =>
        SaveOther(libs, w, op, row, saved);
        UntouchedHolds(libs, w.store, Save(libs, w.store, r, rowInserted, inputs).store, row, saved);
      case LoadOp(id, queries, _) =>
        LoadKeeps(libs, w, id, queries, row, saved);
      case DeleteOp(id, queryWorks) =>
        if id == row.id {
          DeleteSelf(w.store, id, queryWorks);
        } else {
          DeleteOther(w.store, id, queryWorks, row);
          UntouchedHolds(libs, w.store, Delete(w.store, id, queryWorks), row, saved);
        }
      case PurgeOp(t, listWorks, bad) =>
        PurgeHolds(libs, w, t, listWorks, bad, row, saved);
    }
    hide Holds, Gone, Save, Load, Delete, Purge, Leftover, Untouched, Inv;
  }

  lemma {:induction false} DeleteEachGone(w: World, rows: seq<ScanRow>, bad: set<Id>, id: Id)
    requires Inv(w) && Gone(w.store, id)
    ensures Gone(DeleteEach(w.store, rows, bad), id)
  {
    if rows != [] {
      var init, last := rows[..|rows| - 1], rows[|rows| - 1];
      DeleteEachGone(w, init, bad, id);
      DeleteEachInv(w, init, bad);
      DeleteGone(DeleteEach(w.store, init, bad), last.id, last.id !in bad, id);
      hide Gone, Delete, Consistent, Named;
    }
  }

  lemma SaveGone(libs: Libs, w: World, op: Op, id: Id)
    requires Inv(w) && Legal(w, op) && op.SaveOp? && Gone(w.store, id) && id in w.issued
    ensures Gone(Save(libs, w.store, op.row, op.rowInserted, op.inputs).store, id)
  {
    NamesAreFresh(w, op);
    SaveKeeps(libs, w.store, op.row, op.rowInserted, op.inputs);
    if Save(libs, w.store, op.row, op.rowInserted, op.inputs).result.Success? {
      SavedKeeps(libs, w.store, op.row, op.inputs);
    }
    hide Filter, Files, AllSaved, Encodable, KeysOfMatrices, KeysOfPictures, MatrixKeys, PictureKeys, ScanIds,
         Consistent, Save, Leftover, WithPages;
  }

  /** Once gone, a scan stays gone: its id is never handed out again. */
  lemma StepGone(libs: Libs, w: World, op: Op, id: Id)
    requires Inv(w) && Legal(w, op) && Gone(w.store, id) && id in w.issued
    ensures Gone(Step(libs, w, op).store, id)
  {
    match op {
      case SaveOp(_, _, _) => SaveGone(libs, w, op, id);
      case LoadOp(other, queries, _) => DeleteGone(w.store, other, queries.1, id);
      case DeleteOp(other, queryWorks) => DeleteGone(w.store, other, queryWorks, id);
      case PurgeOp(t, listWorks, bad) =>
        DeleteEachGone(w, if listWorks then Filter(CreatedBefore(t), w.store.scans) else [], bad, id);
      case LoseOp(_, _) =>
    }
    hide Filter, ScanIds, Save, Delete, DeleteEach, PagesForScan, AllReadable, Matrices, Leftover, Inv;
  }

  lemma {:induction false} GoneOverRuns(libs: Libs, w: World, ops: seq<Op>, id: Id)
    requires Inv(w) && LegalRun(libs, w, ops) && Gone(w.store, id) && id in w.issued
    decreases |ops|
    ensures Gone(Run(libs, w, ops).store, id)
  {
    if ops != [] {
      StepInv(libs, w, ops[0]);
      StepGone(libs, w, ops[0], id);
      assert id in Step(libs, w, ops[0]).issued;
      GoneOverRuns(libs, Step(libs, w, ops[0]), ops[1..], id);
      hide Step, Gone, Inv, Legal;
    }
  }

  /** Through any run without loss of files, the scan is there exactly until an
      operation removes it. */
  lemma {:induction false} HeldOverRuns(libs: Libs, w: World, ops: seq<Op>, row: ScanRow, saved: seq<Matrix>)
    requires Inv(w) && LegalRun(libs, w, ops) && forall k :: 0 <= k < |ops| ==> NoFileLoss(ops[k])
    requires Holds(libs, w.store, row, saved) && saved != [] && row.id in w.issued
    decreases |ops|
    ensures var s := Run(libs, w, ops).store;
            if exists k :: 0 <= k < |ops| && Removes(ops[k], row) then Gone(s, row.id) else Holds(libs, s, row, saved)
  {
    hide Step, Gone, Holds, Inv, Legal, Removes, NoFileLoss;
    if ops != [] {
      var w1, rest := Step(libs, w, ops[0]), ops[1..];
      StepInv(libs, w, ops[0]);
      StepHolds(libs, w, ops[0], row, saved);
      StillIssued(libs, w, ops[0], row.id);
      assert forall k :: 0 <= k < |rest| ==> rest[k] == ops[k + 1];
      if Removes(ops[0], row) {
        GoneOverRuns(libs, w1, rest, row.id);
      } else {
        HeldOverRuns(libs, w1, rest, row, saved);
        if k :| 0 <= k < |ops| && Removes(ops[k], row) {
          assert Removes(rest[k - 1], row);
        }
      }
    }
  }

  lemma StillIssued(libs: Libs, w: World, op: Op, id: Id)
    requires Legal(w, op) && id in w.issued
    ensures id in Step(libs, w, op).issued
  {
  }

  /** Round trip: after a successful save of gray or binary pages and any run of
      other operations without loss of files, loading returns the same matrices in
      the same order, typed gray; or ErrNotFound, if the scan was deleted or a purge
      reached beyond its time of creation. */
  lemma SaveThenLoad(libs: Libs, w: World, save: Op, ops: seq<Op>, again: bool)
    requires libs.Lawful() && Inv(w) && save.SaveOp? && Legal(w, save)
    requires Save(libs, w.store, save.row, save.rowInserted, save.inputs).result.Success?
    requires save.inputs != [] && forall k :: 0 <= k < |save.inputs| ==> Storable(save.inputs[k].page)
    requires LegalRun(libs, Step(libs, w, save), ops) && forall k :: 0 <= k < |ops| ==> NoFileLoss(ops[k])
    ensures var s := Run(libs, Step(libs, w, save), ops).store;
            Load(libs, s, save.row.id, (true, again), {})
            == Loading(s, if exists k :: 0 <= k < |ops| && Removes(ops[k], save.row) then Failure(ErrNotFound)
                          else Success(AsGray(PagesOf(save.inputs))))
  {
    var w1 := Step(libs, w, save);
    NamesAreFresh(w, save);
    SaveKeeps(libs, w.store, save.row, save.rowInserted, save.inputs);
    SaveHolds(libs, w.store, save.row, save.inputs);
    StepInv(libs, w, save);
    assert save.row.id in w1.issued && Holds(libs, w1.store, save.row, PagesOf(save.inputs));
    hide *;
    HeldOverRuns(libs, w1, ops, save.row, PagesOf(save.inputs));
    InvariantOverRuns(libs, w1, ops);
    FinalLoad(libs, Run(libs, w1, ops), save.row, PagesOf(save.inputs), again);
  }

  lemma FinalLoad(libs: Libs, w: World, row: ScanRow, saved: seq<Matrix>, again: bool)
    requires Inv(w) && saved != []
    ensures Holds(libs, w.store, row, saved) ==>
              Load(libs, w.store, row.id, (true, again), {}) == Loading(w.store, Success(AsGray(saved)))
    ensures Gone(w.store, row.id) ==> Load(libs, w.store, row.id, (true, again), {}) == Loading(w.store, Failure(ErrNotFound))
  {
    if Holds(libs, w.store, row, saved) { LoadHeld(libs, w.store, row, saved, again); }
    if Gone(w.store, row.id) { LoadGone(libs, w.store, row.id, again, {}); }
    hide Load, Holds, Gone;
  }
}
