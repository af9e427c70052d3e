/** Saving, loading, deleting and purging scans: internal/server/resources/local.go
    over the tables of internal/database and the files of internal/fstore.

    Tables are sequences of rows in insertion order, the matrix directory a map
    from keys to file contents, the picture directory a set of keys. Everything
    that can fail from outside is an argument of the call; UUIDs are fresh names,
    and deleting a row or a file that exists succeeds. */
module ScanStore {
  import opened Omr
  import opened Codecs
  import opened Sequences

  /** A UUID; a file name is a UUID with a fixed extension, one for each directory. */
  type Uuid = nat
  type Id = Uuid
  type Key = Uuid

  datatype ScanRow = ScanRow(id: Id, templateId: Id, createdAt: int)

  datatype PageRow = PageRow(matrixKey: Key, pictureKey: Key, index: nat, scanId: Id)

  datatype StoreError = ErrNotFound | ErrDatabaseRead | ErrDatabaseWrite | ErrFileStorageWrite | ErrEncodingImage

  datatype Store = Store(scans: seq<ScanRow>, pages: seq<PageRow>, mats: map<Key, seq<Byte>>, pictures: set<Key>)

  // ----- Queries

  function RowOf(id: Id): PageRow -> bool { (row: PageRow) => row.scanId == id }

  function RowNotOf(id: Id): PageRow -> bool { (row: PageRow) => row.scanId != id }

  function ScanNot(id: Id): ScanRow -> bool { (row: ScanRow) => row.id != id }

  function CreatedBefore(t: int): ScanRow -> bool { (row: ScanRow) => row.createdAt < t }

  /** No later row has a smaller index. */
  predicate Ordered(rows: seq<PageRow>) {
    forall k :: 0 < k < |rows| ==> rows[k - 1].index <= rows[k].index
  }

  /** Puts a row behind all those with a smaller or equal index. */
  function InsertRow(rows: seq<PageRow>, row: PageRow): (r: seq<PageRow>)
    requires Ordered(rows)
    ensures Ordered(r) && multiset(r) == multiset(rows) + multiset{row}
    ensures r != [] && (r[|r| - 1] == row || (rows != [] && r[|r| - 1] == rows[|rows| - 1]))
  {
    if rows == [] || rows[|rows| - 1].index <= row.index then rows + [row]
    else
      var init, last := rows[..|rows| - 1], rows[|rows| - 1];
      assert rows == init + [last];
      InsertRow(init, row) + [last]
  }

  /** ORDER BY page_index ASC */
  function OrderByIndex(rows: seq<PageRow>): (r: seq<PageRow>)
    ensures Ordered(r) && multiset(r) == multiset(rows)
    ensures Ordered(rows) ==> r == rows
  {
    if rows == [] then []
    else
      var init, last := rows[..|rows| - 1], rows[|rows| - 1];
      assert rows == init + [last];
      InsertRow(OrderByIndex(init), last)
  }

  /** GetPagesForScan */
  function PagesForScan(s: Store, id: Id): seq<PageRow> {
    OrderByIndex(Filter(RowOf(id), s.pages))
  }

  function MatrixKeys(rows: seq<PageRow>): set<Key> {
    if rows == [] then {} else MatrixKeys(rows[..|rows| - 1]) + {rows[|rows| - 1].matrixKey}
  }

  function PictureKeys(rows: seq<PageRow>): set<Key> {
    if rows == [] then {} else PictureKeys(rows[..|rows| - 1]) + {rows[|rows| - 1].pictureKey}
  }

  lemma RowKeysGrow(rows: seq<PageRow>, i: nat)
    requires i < |rows|
    ensures MatrixKeys(rows[..i + 1]) == MatrixKeys(rows[..i]) + {rows[i].matrixKey}
    ensures PictureKeys(rows[..i + 1]) == PictureKeys(rows[..i]) + {rows[i].pictureKey}
  {
    assert rows[..i + 1][..i] == rows[..i];
  }

  function KeySet(keys: seq<Key>): set<Key> {
    set key | key in keys
  }

  /** `append`, if the file was written. */
  function Recorded(keys: seq<Key>, written: bool, key: Key): seq<Key> {
    if written then keys + [key] else keys
  }

  lemma RecordedKeys(keys: seq<Key>, written: bool, key: Key)
    ensures KeySet(Recorded(keys, written, key)) == KeySet(keys) + (if written then {key} else {})
  {
  }

  // ----- Saving

  /** What goes wrong, if anything, while one page is saved. */
  datatype PageFault =
    | NoFault
    | MatrixNotCreated
    | MatrixNotEncoded(partial: seq<Byte>)
    | PictureNotCreated
    | PictureNotEncoded
    | RowNotInserted

  /** A page to save, the names its files get, and what will go wrong. */
  datatype PageInput = PageInput(page: Matrix, matrixKey: Key, pictureKey: Key, fault: PageFault)

  /** How saving one page ends; a matrix file may be left behind half written. */
  datatype PageOutcome = Saved(file: seq<Byte>) | Failed(error: StoreError, leftover: Option<seq<Byte>>)

  /** `Mats.Set`: creating the file and encoding the matrix into it. */
  datatype SetOutcome = Stored(file: seq<Byte>) | NotCreated | NotEncoded(partial: seq<Byte>)

  function SetMatrix(libs: Libs, i: PageInput): SetOutcome
    requires Int32Header(i.page)
  {
    if i.fault.MatrixNotCreated? then NotCreated
    else
      match M4t(libs, i.page)
      case Failure(_) => NotEncoded([])
      case Success(file) => if i.fault.MatrixNotEncoded? then NotEncoded(i.fault.partial) else Stored(file)
  }

  function Outcome(libs: Libs, i: PageInput): PageOutcome
    requires Int32Header(i.page)
  {
    match SetMatrix(libs, i)
    case NotCreated => Failed(ErrFileStorageWrite, None)
    case NotEncoded(partial) => Failed(ErrFileStorageWrite, Some(partial))
    case Stored(file) =>
      if i.fault.PictureNotCreated? then Failed(ErrFileStorageWrite, None)
      else if i.fault.PictureNotEncoded? then Failed(ErrEncodingImage, None)
      else if i.fault.RowNotInserted? then Failed(ErrDatabaseWrite, None)
      else Saved(file)
  }

  predicate Encodable(inputs: seq<PageInput>) {
    forall k :: 0 <= k < |inputs| ==> Int32Header(inputs[k].page)
  }

  /** How many pages are saved before the first that fails. */
  function SavedCount(libs: Libs, inputs: seq<PageInput>): (n: nat)
    requires Encodable(inputs)
    ensures n <= |inputs| && (forall k :: 0 <= k < n ==> Outcome(libs, inputs[k]).Saved?)
    ensures n < |inputs| ==> Outcome(libs, inputs[n]).Failed?
  {
    if inputs == [] || Outcome(libs, inputs[0]).Failed? then 0 else 1 + SavedCount(libs, inputs[1..])
  }

  function KeysOfMatrices(inputs: seq<PageInput>): set<Key> {
    set i | i in inputs :: i.matrixKey
  }

  function KeysOfPictures(inputs: seq<PageInput>): set<Key> {
    set i | i in inputs :: i.pictureKey
  }

  predicate AllSaved(libs: Libs, inputs: seq<PageInput>) {
    Encodable(inputs) && forall k :: 0 <= k < |inputs| ==> Outcome(libs, inputs[k]).Saved?
  }

  /** The matrix files of saved pages. */
  function Files(libs: Libs, inputs: seq<PageInput>): (r: map<Key, seq<Byte>>)
    requires AllSaved(libs, inputs)
    ensures r.Keys == KeysOfMatrices(inputs)
  {
    if inputs == [] then map[]
    else
      var init, last := inputs[..|inputs| - 1], inputs[|inputs| - 1];
      assert inputs == init + [last];
      Files(libs, init)[last.matrixKey := Outcome(libs, last).file]
  }

  /** The table rows of saved pages. */
  function PageRows(id: Id, inputs: seq<PageInput>): (r: seq<PageRow>)
    ensures |r| == |inputs|
    ensures forall k :: 0 <= k < |r| ==> r[k] == PageRow(inputs[k].matrixKey, inputs[k].pictureKey, k, id)
  {
    seq(|inputs|, k requires 0 <= k < |inputs| => PageRow(inputs[k].matrixKey, inputs[k].pictureKey, k, id))
  }

  /** The store with the pages of a scan added. */
  function WithPages(libs: Libs, s: Store, id: Id, inputs: seq<PageInput>): Store
    requires AllSaved(libs, inputs)
  {
    s.(pages := s.pages + PageRows(id, inputs),
       mats := s.mats + Files(libs, inputs),
       pictures := s.pictures + KeysOfPictures(inputs))
  }

  /** The names of a save have never been used. */
  ghost predicate FreshNames(s: Store, id: Id, inputs: seq<PageInput>) {
    && (forall k :: 0 <= k < |s.scans| ==> s.scans[k].id != id)
    && (forall k :: 0 <= k < |s.pages| ==> s.pages[k].scanId != id)
    && (forall i, j :: 0 <= i < j < |inputs| ==>
          inputs[i].matrixKey != inputs[j].matrixKey && inputs[i].pictureKey != inputs[j].pictureKey)
    && KeysOfMatrices(inputs) !! s.mats.Keys + MatrixKeys(s.pages)
    && KeysOfPictures(inputs) !! s.pictures + PictureKeys(s.pages)
  }

  datatype Saving = Saving(store: Store, result: Result<Id, StoreError>)

  /** What a save promises: all pages, or the store it found, but for one matrix
      file that could be created and not be written. */
  function Save(libs: Libs, s: Store, row: ScanRow, rowInserted: bool, inputs: seq<PageInput>): Saving
    requires Encodable(inputs)
  {
    var n := SavedCount(libs, inputs);
    if !rowInserted then
      Saving(s, Failure(ErrDatabaseWrite))
    else if n == |inputs| then
      Saving(WithPages(libs, s.(scans := s.scans + [row]), row.id, inputs), Success(row.id))
    else
      var failed := Outcome(libs, inputs[n]);
      match failed.leftover
      case None => Saving(s, Failure(failed.error))
      case Some(partial) => Saving(s.(mats := s.mats[inputs[n].matrixKey := partial]), Failure(failed.error))
  }

  // ----- Deleting and loading

  /** Deleting a scan. When the page query fails the rows go, and the files stay. */
  function Delete(s: Store, id: Id, queryWorks: bool): Store {
    var rows := if queryWorks then PagesForScan(s, id) else [];
    Store(Filter(ScanNot(id), s.scans), Filter(RowNotOf(id), s.pages), s.mats - MatrixKeys(rows), s.pictures - PictureKeys(rows))
  }

  lemma DeleteIs(s: Store, id: Id, queryWorks: bool)
    ensures var rows := if queryWorks then PagesForScan(s, id) else [];
            && MatrixKeys(rows[..0]) == {} && PictureKeys(rows[..0]) == {}
            && Delete(s, id, queryWorks) == Store(Filter(ScanNot(id), s.scans), Filter(RowNotOf(id), s.pages),
                                                  s.mats - MatrixKeys(rows), s.pictures - PictureKeys(rows))
  {
  }

  /** Deleting the listed scans one by one. */
  function DeleteEach(s: Store, rows: seq<ScanRow>, badQueries: set<Id>): Store {
    if rows == [] then s
    else
      var init, last := rows[..|rows| - 1], rows[|rows| - 1];
      Delete(DeleteEach(s, init, badQueries), last.id, last.id !in badQueries)
  }

  function Purge(s: Store, t: int, listWorks: bool, badQueries: set<Id>): Store {
    DeleteEach(s, if listWorks then Filter(CreatedBefore(t), s.scans) else [], badQueries)
  }

  /** `Mats.Get`; keys in `unreadable` cannot be opened this time. */
  function GetMatrix(libs: Libs, s: Store, key: Key, unreadable: set<Key>): Option<Matrix> {
    if key !in s.mats || key in unreadable then None
    else
      match FromM4t(libs, s.mats[key])
      case Failure(_) => None
      case Success(m) => Some(m)
  }

  datatype Loading = Loading(store: Store, result: Result<seq<Matrix>, StoreError>)

  predicate AllReadable(libs: Libs, s: Store, rows: seq<PageRow>, unreadable: set<Key>) {
    forall k :: 0 <= k < |rows| ==> GetMatrix(libs, s, rows[k].matrixKey, unreadable).Some?
  }

  function Matrices(libs: Libs, s: Store, rows: seq<PageRow>, unreadable: set<Key>): (r: seq<Matrix>)
    requires AllReadable(libs, s, rows, unreadable)
    ensures |r| == |rows|
    ensures forall k :: 0 <= k < |r| ==> GetMatrix(libs, s, rows[k].matrixKey, unreadable) == Some(r[k])
  {
    seq(|rows|, k requires 0 <= k < |rows| => GetMatrix(libs, s, rows[k].matrixKey, unreadable).value)
  }

  /** Loading a scan: every page in order, or the scan is taken for corrupted and
      deleted. `queries` says whether the first and the second query work. */
  function Load(libs: Libs, s: Store, id: Id, queries: (bool, bool), unreadable: set<Key>): Loading {
    var rows := PagesForScan(s, id);
    if !queries.0 then Loading(s, Failure(ErrDatabaseRead))
    else if rows == [] then Loading(s, Failure(ErrNotFound))
    else if AllReadable(libs, s, rows, unreadable) then
      Loading(s, Success(Matrices(libs, s, rows, unreadable)))
    else Loading(Delete(s, id, queries.1), Failure(ErrNotFound))
  }

  // ----- The source's object

  class Local {
    const libs: Libs
    var scans: seq<ScanRow>
    var pages: seq<PageRow>
    var mats: map<Key, seq<Byte>>
    var pictures: set<Key>

    function Contents(): Store
      reads this
    {
      Store(scans, pages, mats, pictures)
    }

    constructor (libs: Libs)
      ensures Contents() == Store([], [], map[], {}) && this.libs == libs
    {
      this.libs := libs;
      scans, pages, mats, pictures := [], [], map[], {};
    }

    /** The closure of `SaveScan` that removes what was saved so far. */
    method CleanupFailure(scanId: Id, savedMats: seq<Key>, savedImages: seq<Key>)
      modifies this
      ensures Contents() == Cleaned(old(Contents()), scanId, KeySet(savedMats), KeySet(savedImages))
    {
      for i := 0 to |savedMats|
        invariant mats == old(mats) - KeySet(savedMats[..i])
        invariant scans == old(scans) && pages == old(pages) && pictures == old(pictures)
      {
        assert savedMats[..i + 1] == savedMats[..i] + [savedMats[i]];
        mats := mats - {savedMats[i]};
      }
      assert savedMats[..|savedMats|] == savedMats;
      for i := 0 to |savedImages|
        invariant pictures == old(pictures) - KeySet(savedImages[..i])
        invariant scans == old(scans) && pages == old(pages) && mats == old(mats) - KeySet(savedMats)
      {
        assert savedImages[..i + 1] == savedImages[..i] + [savedImages[i]];
        pictures := pictures - {savedImages[i]};
      }
      assert savedImages[..|savedImages|] == savedImages;
      pages := Filter(RowNotOf(scanId), pages);
      scans := Filter(ScanNot(scanId), scans);
    }

    method DeleteScan(id: Id, queryWorks: bool)
      modifies this
      ensures Contents() == Delete(old(Contents()), id, queryWorks)
    {
      var rows := if queryWorks then PagesForScan(Contents(), id) else [];
      DeleteIs(Contents(), id, queryWorks);
      hide PagesForScan, MatrixKeys, PictureKeys, Filter, Delete;
      for i := 0 to |rows|
        invariant mats == old(mats) - MatrixKeys(rows[..i]) && pictures == old(pictures) - PictureKeys(rows[..i])
        invariant scans == old(scans) && pages == old(pages)
      {
        RowKeysGrow(rows, i);
        pictures := pictures - {rows[i].pictureKey};
        mats := mats - {rows[i].matrixKey};
      }
      assert rows[..|rows|] == rows;
      pages := Filter(RowNotOf(id), pages);
      scans := Filter(ScanNot(id), scans);
    }

    method DeleteAllScansFromBefore(t: int, listWorks: bool, badQueries: set<Id>)
      modifies this
      ensures Contents() == Purge(old(Contents()), t, listWorks, badQueries)
    {
      var rows := if listWorks then Filter(CreatedBefore(t), scans) else [];
      hide Filter, Delete;
      for i := 0 to |rows|
        invariant Contents() == DeleteEach(old(Contents()), rows[..i], badQueries)
      {
        DeleteScan(rows[i].id, rows[i].id !in badQueries);
        assert rows[..i + 1][..i] == rows[..i];
      }
      assert rows[..|rows|] == rows;
    }

    method LoadScan(id: Id, queries: (bool, bool), unreadable: set<Key>) returns (r: Result<seq<Matrix>, StoreError>)
      modifies this
      ensures Loading(Contents(), r) == Load(libs, old(Contents()), id, queries, unreadable)
    {
      hide PagesForScan, GetMatrix, Delete;
      if !queries.0 {
        return Failure(ErrDatabaseRead);
      }
      var records := PagesForScan(Contents(), id);
      if |records| == 0 {
        return Failure(ErrNotFound);
      }
      var loaded: seq<Matrix> := [];
      for i := 0 to |records|
        invariant |loaded| == i && Contents() == old(Contents())
        invariant forall k :: 0 <= k < i ==> GetMatrix(libs, Contents(), records[k].matrixKey, unreadable) == Some(loaded[k])
      {
        var m := GetMatrix(libs, Contents(), records[i].matrixKey, unreadable);
        if m.None? {
          assert !AllReadable(libs, Contents(), records, unreadable);
          DeleteScan(id, queries.1);
          return Failure(ErrNotFound);
        }
        loaded := loaded + [m.value];
      }
      r := Success(loaded);
      assert loaded == Matrices(libs, Contents(), records, unreadable);
    }

    /** The body of the loop in `SaveScan`, up to a failure. */
    method SavePage(scanId: Id, index: nat, input: PageInput)
      returns (error: Option<StoreError>, matrixSaved: bool, pictureSaved: bool)
      requires Int32Header(input.page)
      modifies this
      ensures PageStep(Contents(), error, matrixSaved, pictureSaved)
              == TrySave(libs, old(Contents()), scanId, index, input)
    {
      matrixSaved, pictureSaved := false, false;
      var stored := SetMatrix(libs, input);
      match stored {
        case NotCreated =>
          return Some(ErrFileStorageWrite), matrixSaved, pictureSaved;
        case NotEncoded(partial) =>
          mats := mats[input.matrixKey := partial];
          return Some(ErrFileStorageWrite), matrixSaved, pictureSaved;
        case Stored(file) =>
          mats := mats[input.matrixKey := file];
      }
      matrixSaved := true;

      if input.fault.PictureNotCreated? {
        return Some(ErrFileStorageWrite), matrixSaved, pictureSaved;
      }
      pictures := pictures + {input.pictureKey};
      pictureSaved := true;
      if input.fault.PictureNotEncoded? {
        return Some(ErrEncodingImage), matrixSaved, pictureSaved;
      }

      if input.fault.RowNotInserted? {
        return Some(ErrDatabaseWrite), matrixSaved, pictureSaved;
      }
      pages := pages + [PageRow(input.matrixKey, input.pictureKey, index, scanId)];
      error := None;
    }

    method SaveScan(row: ScanRow, rowInserted: bool, inputs: seq<PageInput>) returns (r: Result<Id, StoreError>)
      requires Encodable(inputs) && FreshNames(Contents(), row.id, inputs)
      modifies this
      ensures Saving(Contents(), r) == Save(libs, old(Contents()), row, rowInserted, inputs)
    {
      hide Encodable, FreshNames, Save, SavedSoFar, TrySave, Cleaned, KeySet, Recorded;
      if !rowInserted {
        NotInserted(libs, Contents(), row, inputs);
        return Failure(ErrDatabaseWrite);
      }
      scans := scans + [row];
      ghost var start := Contents();

      var savedMats: seq<Key>, savedImages: seq<Key> := [], [];
      NoPageYet(libs, start, row.id, inputs);
      for i := 0 to |inputs|
        invariant SavedSoFar(libs, start, row.id, inputs[..i], savedMats, savedImages, Contents())
      {
        ghost var before, mats0, images0 := Contents(), savedMats, savedImages;
        EncodablePage(inputs, i);
        var error, matrixSaved, pictureSaved := SavePage(row.id, i, inputs[i]);
        ghost var step := PageStep(Contents(), error, matrixSaved, pictureSaved);
        savedMats := Recorded(savedMats, matrixSaved, inputs[i].matrixKey);
        savedImages := Recorded(savedImages, pictureSaved, inputs[i].pictureKey);
        if error.Some? {
          CleanupFailure(row.id, savedMats, savedImages);
          Undone(libs, old(Contents()), row, inputs, i, mats0, images0, before, step);
          return Failure(error.value);
        }
        OneMoreSaved(libs, start, row.id, inputs, i, mats0, images0, before, step);
      }
      EveryPage(libs, old(Contents()), row, inputs, savedMats, savedImages, Contents());
      r := Success(row.id);
    }
  }

  // ----- The loop body of a save, and why the rollback works

  /** The store after one page, whether it failed, and which keys were recorded. */
  datatype PageStep = PageStep(store: Store, error: Option<StoreError>, matrixSaved: bool, pictureSaved: bool)

  function TrySave(libs: Libs, s: Store, id: Id, index: nat, i: PageInput): PageStep
    requires Int32Header(i.page)
  {
    match SetMatrix(libs, i)
    case NotCreated => PageStep(s, Some(ErrFileStorageWrite), false, false)
    case NotEncoded(partial) => PageStep(s.(mats := s.mats[i.matrixKey := partial]), Some(ErrFileStorageWrite), false, false)
    case Stored(file) =>
      var s1 := s.(mats := s.mats[i.matrixKey := file]);
      var s2 := s1.(pictures := s1.pictures + {i.pictureKey});
      if i.fault.PictureNotCreated? then PageStep(s1, Some(ErrFileStorageWrite), true, false)
      else if i.fault.PictureNotEncoded? then PageStep(s2, Some(ErrEncodingImage), true, true)
      else if i.fault.RowNotInserted? then PageStep(s2, Some(ErrDatabaseWrite), true, true)
      else PageStep(s2.(pages := s2.pages + [PageRow(i.matrixKey, i.pictureKey, index, id)]), None, true, true)
  }

  function Cleaned(s: Store, id: Id, matKeys: set<Key>, pictureKeys: set<Key>): Store {
    Store(Filter(ScanNot(id), s.scans), Filter(RowNotOf(id), s.pages), s.mats - matKeys, s.pictures - pictureKeys)
  }

  /** The loop body does what the outcome of the page says. */
  lemma TrySaveOutcome(libs: Libs, s: Store, id: Id, index: nat, i: PageInput)
    requires Int32Header(i.page)
    ensures var step := TrySave(libs, s, id, index, i);
            match Outcome(libs, i)
            case Saved(file) =>
              step == PageStep(s.(mats := s.mats[i.matrixKey := file], pictures := s.pictures + {i.pictureKey},
                                  pages := s.pages + [PageRow(i.matrixKey, i.pictureKey, index, id)]), None, true, true)
            case Failed(e, leftover) =>
              && step.error == Some(e) && step.store.scans == s.scans && step.store.pages == s.pages
              && step.store.pictures == (if step.pictureSaved then s.pictures + {i.pictureKey} else s.pictures)
              && (leftover.Some? ==> !step.matrixSaved && step.store.mats == s.mats[i.matrixKey := leftover.value])
              && (leftover.None? && !step.matrixSaved ==> step.store.mats == s.mats)
              && (step.matrixSaved ==>
                    SetMatrix(libs, i).Stored? && step.store.mats == s.mats[i.matrixKey := SetMatrix(libs, i).file])
  {
    hide M4t;
  }

  lemma PrefixGrows(inputs: seq<PageInput>, n: nat)
    requires n < |inputs|
    ensures inputs[..n + 1] == inputs[..n] + [inputs[n]] && inputs[..n + 1][..n] == inputs[..n]
    ensures KeysOfMatrices(inputs[..n + 1]) == KeysOfMatrices(inputs[..n]) + {inputs[n].matrixKey}
    ensures KeysOfPictures(inputs[..n + 1]) == KeysOfPictures(inputs[..n]) + {inputs[n].pictureKey}
  {
    assert inputs[..n + 1] == inputs[..n] + [inputs[n]];
  }

  lemma PageRowsGrow(id: Id, inputs: seq<PageInput>, n: nat)
    requires n < |inputs|
    ensures PageRows(id, inputs[..n + 1])
            == PageRows(id, inputs[..n]) + [PageRow(inputs[n].matrixKey, inputs[n].pictureKey, n, id)]
  {
  }

  lemma FilesGrow(libs: Libs, inputs: seq<PageInput>, n: nat)
    requires n < |inputs| && Encodable(inputs) && AllSaved(libs, inputs[..n]) && Outcome(libs, inputs[n]).Saved?
    ensures AllSaved(libs, inputs[..n + 1])
    ensures Files(libs, inputs[..n + 1]) == Files(libs, inputs[..n])[inputs[n].matrixKey := Outcome(libs, inputs[n]).file]
  {
    hide Outcome;
    assert inputs[..n + 1][..n] == inputs[..n];
  }

  lemma MergeGrows(libs: Libs, mats: map<Key, seq<Byte>>, inputs: seq<PageInput>, n: nat)
    requires n < |inputs| && Encodable(inputs) && AllSaved(libs, inputs[..n]) && Outcome(libs, inputs[n]).Saved?
    ensures AllSaved(libs, inputs[..n + 1])
    ensures mats + Files(libs, inputs[..n + 1])
            == (mats + Files(libs, inputs[..n]))[inputs[n].matrixKey := Outcome(libs, inputs[n]).file]
  {
    FilesGrow(libs, inputs, n);
    hide Files, AllSaved, Outcome;
  }

  lemma RowsGrow(pages: seq<PageRow>, pictures: set<Key>, id: Id, inputs: seq<PageInput>, n: nat)
    requires n < |inputs|
    ensures pages + PageRows(id, inputs[..n + 1])
            == pages + PageRows(id, inputs[..n]) + [PageRow(inputs[n].matrixKey, inputs[n].pictureKey, n, id)]
    ensures pictures + KeysOfPictures(inputs[..n + 1])
            == pictures + KeysOfPictures(inputs[..n]) + {inputs[n].pictureKey}
  {
    PrefixGrows(inputs, n);
    PageRowsGrow(id, inputs, n);
    hide *;
  }

  lemma OneMorePage(libs: Libs, s: Store, id: Id, inputs: seq<PageInput>, n: nat)
    requires Encodable(inputs) && n < |inputs| && AllSaved(libs, inputs[..n])
    requires TrySave(libs, WithPages(libs, s, id, inputs[..n]), id, n, inputs[n]).error.None?
    ensures Outcome(libs, inputs[n]).Saved? && AllSaved(libs, inputs[..n + 1])
    ensures TrySave(libs, WithPages(libs, s, id, inputs[..n]), id, n, inputs[n])
            == PageStep(WithPages(libs, s, id, inputs[..n + 1]), None, true, true)
  {
    TrySaveOutcome(libs, WithPages(libs, s, id, inputs[..n]), id, n, inputs[n]);
    MergeGrows(libs, s.mats, inputs, n);
    RowsGrow(s.pages, s.pictures, id, inputs, n);
    hide TrySave, Outcome, AllSaved, Encodable, Files, PageRows, KeysOfPictures;
  }

  /** Rows of one scan, behind rows of others. */
  lemma RowsOfOthers(pages: seq<PageRow>, added: seq<PageRow>, id: Id)
    requires forall k :: 0 <= k < |pages| ==> pages[k].scanId != id
    requires forall k :: 0 <= k < |added| ==> added[k].scanId == id
    ensures Filter(RowNotOf(id), pages + added) == pages && Filter(RowOf(id), pages + added) == added
  {
    FilterAppend(RowNotOf(id), pages, added);
    FilterAll(RowNotOf(id), pages);
    FilterNone(RowNotOf(id), added);
    FilterAppend(RowOf(id), pages, added);
    FilterNone(RowOf(id), pages);
    FilterAll(RowOf(id), added);
  }

  lemma FreshKeys(s: Store, id: Id, inputs: seq<PageInput>, n: nat)
    requires FreshNames(s, id, inputs) && n < |inputs|
    ensures s.mats.Keys !! KeysOfMatrices(inputs[..n]) && s.pictures !! KeysOfPictures(inputs[..n])
    ensures inputs[n].matrixKey !in s.mats && inputs[n].matrixKey !in KeysOfMatrices(inputs[..n])
    ensures inputs[n].pictureKey !in s.pictures && inputs[n].pictureKey !in KeysOfPictures(inputs[..n])
  {
    forall i | i in inputs[..n]
      ensures i.matrixKey !in s.mats && i.pictureKey !in s.pictures
              && i.matrixKey != inputs[n].matrixKey && i.pictureKey != inputs[n].pictureKey
    {
      var k :| 0 <= k < n && inputs[..n][k] == i;
      assert inputs[k] == i;
    }
  }

  lemma RemoveRows(s: Store, row: ScanRow, inputs: seq<PageInput>, n: nat)
    requires FreshNames(s, row.id, inputs) && n <= |inputs|
    ensures Filter(RowNotOf(row.id), s.pages + PageRows(row.id, inputs[..n])) == s.pages
    ensures Filter(ScanNot(row.id), s.scans + [row]) == s.scans
  {
    RowsOfOthers(s.pages, PageRows(row.id, inputs[..n]), row.id);
    FilterAppend(ScanNot(row.id), s.scans, [row]);
    FilterAll(ScanNot(row.id), s.scans);
    FilterNone(ScanNot(row.id), [row]);
  }

  lemma CountIs(libs: Libs, inputs: seq<PageInput>, n: nat)
    requires Encodable(inputs) && n < |inputs| && AllSaved(libs, inputs[..n]) && Outcome(libs, inputs[n]).Failed?
    ensures SavedCount(libs, inputs) == n
  {
    assert forall k :: 0 <= k < n ==> inputs[..n][k] == inputs[k];
  }

  /** All of `inputs` are saved, and their keys recorded. */
  ghost predicate SavedSoFar(libs: Libs, start: Store, id: Id, inputs: seq<PageInput>, savedMats: seq<Key>, savedImages: seq<Key>,
                             s: Store)
  {
    && AllSaved(libs, inputs) && s == WithPages(libs, start, id, inputs)
    && KeySet(savedMats) == KeysOfMatrices(inputs) && KeySet(savedImages) == KeysOfPictures(inputs)
  }

  lemma NotInserted(libs: Libs, s: Store, row: ScanRow, inputs: seq<PageInput>)
    requires Encodable(inputs)
    ensures Save(libs, s, row, false, inputs) == Saving(s, Failure(ErrDatabaseWrite))
  {
  }

  lemma NoPageYet(libs: Libs, start: Store, id: Id, inputs: seq<PageInput>)
    ensures SavedSoFar(libs, start, id, inputs[..0], [], [], start)
  {
    assert inputs[..0] == [];
  }

  lemma EncodablePage(inputs: seq<PageInput>, n: nat)
    requires Encodable(inputs) && n < |inputs|
    ensures Int32Header(inputs[n].page)
  {
  }

  lemma OneMoreSaved(libs: Libs, start: Store, id: Id, inputs: seq<PageInput>, n: nat, savedMats: seq<Key>, savedImages: seq<Key>,
                     s: Store, step: PageStep)
    requires Encodable(inputs) && n < |inputs| && SavedSoFar(libs, start, id, inputs[..n], savedMats, savedImages, s)
    requires step == TrySave(libs, s, id, n, inputs[n]) && step.error.None?
    ensures SavedSoFar(libs, start, id, inputs[..n + 1], Recorded(savedMats, step.matrixSaved, inputs[n].matrixKey),
                       Recorded(savedImages, step.pictureSaved, inputs[n].pictureKey), step.store)
  {
    hide TrySave, WithPages, Outcome, AllSaved, Encodable, KeySet, KeysOfMatrices, KeysOfPictures, Recorded;
    RecordedKeys(savedMats, step.matrixSaved, inputs[n].matrixKey);
    RecordedKeys(savedImages, step.pictureSaved, inputs[n].pictureKey);
    PrefixGrows(inputs, n);
    OneMorePage(libs, start, id, inputs, n);
  }

  lemma EveryPage(libs: Libs, s: Store, row: ScanRow, inputs: seq<PageInput>, savedMats: seq<Key>, savedImages: seq<Key>,
                  s': Store)
    requires Encodable(inputs)
    requires SavedSoFar(libs, s.(scans := s.scans + [row]), row.id, inputs[..|inputs|], savedMats, savedImages, s')
    ensures Save(libs, s, row, true, inputs) == Saving(s', Success(row.id))
  {
    hide WithPages;
    assert inputs[..|inputs|] == inputs;
    assert SavedCount(libs, inputs) == |inputs|;
  }

  /** The store that the first failing page leaves after the cleanup. */
  lemma CleanedStore(libs: Libs, s: Store, row: ScanRow, inputs: seq<PageInput>, n: nat)
    requires Encodable(inputs) && FreshNames(s, row.id, inputs)
    requires n < |inputs| && AllSaved(libs, inputs[..n]) && Outcome(libs, inputs[n]).Failed?
    ensures var step := TrySave(libs, WithPages(libs, s.(scans := s.scans + [row]), row.id, inputs[..n]), row.id, n, inputs[n]);
            var leftover := Outcome(libs, inputs[n]).leftover;
            Cleaned(step.store, row.id,
                    KeysOfMatrices(inputs[..n]) + (if step.matrixSaved then {inputs[n].matrixKey} else {}),
                    KeysOfPictures(inputs[..n]) + (if step.pictureSaved then {inputs[n].pictureKey} else {}))
            == if leftover.Some? then s.(mats := s.mats[inputs[n].matrixKey := leftover.value]) else s
  {
    var before, i := WithPages(libs, s.(scans := s.scans + [row]), row.id, inputs[..n]), inputs[n];
    var step, outcome := TrySave(libs, before, row.id, n, i), Outcome(libs, i);
    TrySaveOutcome(libs, before, row.id, n, i);
    RemoveRows(s, row, inputs, n);
    FreshKeys(s, row.id, inputs, n);
    CleanMats(s.mats, Files(libs, inputs[..n]), i.matrixKey, step.store.mats, step.matrixSaved, outcome.leftover);
    CleanPictures(s.pictures, KeysOfPictures(inputs[..n]), i.pictureKey, step.store.pictures, step.pictureSaved);
    hide Filter, TrySave, Outcome, AllSaved, Encodable, FreshNames, Files, PageRows, KeysOfPictures, KeysOfMatrices;
  }

  lemma CleanMats(mats: map<Key, seq<Byte>>, files: map<Key, seq<Byte>>, key: Key,
                  after: map<Key, seq<Byte>>, matrixSaved: bool, leftover: Option<seq<Byte>>)
    requires mats.Keys !! files.Keys && key !in mats && key !in files
    requires matrixSaved ==> leftover.None? && key in after && after == (mats + files)[key := after[key]]
    requires !matrixSaved ==> after == if leftover.Some? then (mats + files)[key := leftover.value] else mats + files
    ensures after - (files.Keys + (if matrixSaved then {key} else {}))
            == if leftover.Some? then mats[key := leftover.value] else mats
  {
  }

  lemma CleanPictures(pictures: set<Key>, added: set<Key>, key: Key, after: set<Key>, pictureSaved: bool)
    requires pictures !! added && key !in pictures
    requires after == if pictureSaved then pictures + added + {key} else pictures + added
    ensures after - (added + (if pictureSaved then {key} else {})) == pictures
  {
  }

  /** Cleaning up after the first failing page gives what `Save` promises. */
  lemma Rollback(libs: Libs, s: Store, row: ScanRow, inputs: seq<PageInput>, n: nat)
    requires Encodable(inputs) && FreshNames(s, row.id, inputs)
    requires n < |inputs| && AllSaved(libs, inputs[..n])
    requires TrySave(libs, WithPages(libs, s.(scans := s.scans + [row]), row.id, inputs[..n]), row.id, n, inputs[n]).error.Some?
    ensures var step := TrySave(libs, WithPages(libs, s.(scans := s.scans + [row]), row.id, inputs[..n]), row.id, n, inputs[n]);
            Saving(Cleaned(step.store, row.id,
                           KeysOfMatrices(inputs[..n]) + (if step.matrixSaved then {inputs[n].matrixKey} else {}),
                           KeysOfPictures(inputs[..n]) + (if step.pictureSaved then {inputs[n].pictureKey} else {})),
                   Failure(step.error.value))
            == Save(libs, s, row, true, inputs)
  {
    TrySaveOutcome(libs, WithPages(libs, s.(scans := s.scans + [row]), row.id, inputs[..n]), row.id, n, inputs[n]);
    CountIs(libs, inputs, n);
    CleanedStore(libs, s, row, inputs, n);
    hide TrySave, Cleaned, Outcome, AllSaved, Encodable, FreshNames, WithPages, KeysOfPictures, KeysOfMatrices,
         SavedCount;
  }

  lemma Undone(libs: Libs, s: Store, row: ScanRow, inputs: seq<PageInput>, n: nat, savedMats: seq<Key>, savedImages: seq<Key>,
               before: Store, step: PageStep)
    requires Encodable(inputs) && FreshNames(s, row.id, inputs) && n < |inputs|
    requires SavedSoFar(libs, s.(scans := s.scans + [row]), row.id, inputs[..n], savedMats, savedImages, before)
    requires step == TrySave(libs, before, row.id, n, inputs[n]) && step.error.Some?
    ensures Saving(Cleaned(step.store, row.id, KeySet(Recorded(savedMats, step.matrixSaved, inputs[n].matrixKey)),
                           KeySet(Recorded(savedImages, step.pictureSaved, inputs[n].pictureKey))),
                   Failure(step.error.value))
            == Save(libs, s, row, true, inputs)
  {
    hide TrySave, WithPages, Cleaned, Save, AllSaved, Encodable, FreshNames, KeySet, KeysOfMatrices, KeysOfPictures, Recorded;
    RecordedKeys(savedMats, step.matrixSaved, inputs[n].matrixKey);
    RecordedKeys(savedImages, step.pictureSaved, inputs[n].pictureKey);
    Rollback(libs, s, row, inputs, n);
  }
}
