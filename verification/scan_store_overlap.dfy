/** A save that other operations of the store overlap: they run between the creation of
    the scan and its pages, one page at a time. The store has no lock. */
module ScanStoreOverlap {
  import opened Omr
  import opened Codecs
  import opened Sequences
  import opened ScanStore
  import opened ScanStoreRows
  import opened ScanStoreRuns
  import opened ScanStoreProofs

  /** What others do between two steps of a save; another save comes in its own steps. */
  datatype Event =
    | CreateScan(created: ScanRow)
    | StorePage(id: Id, index: nat, input: PageInput)
    | CleanUp(id: Id, savedMats: set<Key>, savedImages: set<Key>)
    | DeleteOne(id: Id, queryWorks: bool)
    | LoadOne(id: Id, queries: (bool, bool), unreadable: set<Key>)
    | PurgeBefore(t: int, listWorks: bool, badQueries: set<Id>)
    | LoseFiles(lostMats: set<Key>, lostPictures: set<Key>)

  /** Another request: it has its own scan and files. A scan is not deleted or loaded by
      its identifier before the save has returned that. */
  predicate Foreign(e: Event, id: Id, keys: set<Key>) {
    match e
    case CreateScan(row) => row.id != id
    case StorePage(other, _, input) => other != id && input.matrixKey !in keys && Int32Header(input.page)
    case CleanUp(other, savedMats, _) => other != id && savedMats !! keys
    case DeleteOne(other, _) => other != id
    case LoadOne(other, _, _) => other != id
    case PurgeBefore(_, _, _) => true
    case LoseFiles(lostMats, _) => lostMats !! keys
  }

  predicate AllForeign(events: seq<Event>, id: Id, keys: set<Key>) {
    forall k :: 0 <= k < |events| ==> Foreign(events[k], id, keys)
  }

  function Happen(libs: Libs, s: Store, e: Event): Store
    requires e.StorePage? ==> Int32Header(e.input.page)
  {
    match e
    case CreateScan(row) => s.(scans := s.scans + [row])
    case StorePage(id, index, input) => TrySave(libs, s, id, index, input).store
    case CleanUp(id, savedMats, savedImages) => Cleaned(s, id, savedMats, savedImages)
    case DeleteOne(id, queryWorks) => Delete(s, id, queryWorks)
    case LoadOne(id, queries, unreadable) => Load(libs, s, id, queries, unreadable).store
    case PurgeBefore(t, listWorks, badQueries) => Purge(s, t, listWorks, badQueries)
    case LoseFiles(lostMats, lostPictures) => s.(mats := s.mats - lostMats, pictures := s.pictures - lostPictures)
  }

  function HappenAll(libs: Libs, s: Store, events: seq<Event>, id: Id, keys: set<Key>): Store
    requires AllForeign(events, id, keys)
  {
    if events == [] then s
    else Happen(libs, HappenAll(libs, s, events[..|events| - 1], id, keys), events[|events| - 1])
  }

  /** The purge finds the scan, if its row is there. */
  predicate Hits(e: Event, row: ScanRow) { e.PurgeBefore? && e.listWorks && row.createdAt < e.t }

  predicate Hit(events: seq<Event>, row: ScanRow) {
    exists k :: 0 <= k < |events| && Hits(events[k], row)
  }

  // ----- What events of others leave of a scan

  function Rows(s: Store, id: Id): seq<PageRow> { Filter(RowOf(id), s.pages) }

  /** No other scan has the identifier, and no other page the keys. */
  ghost predicate Apart(s: Store, row: ScanRow, keys: set<Key>) {
    && (forall k :: 0 <= k < |s.scans| && s.scans[k].id == row.id ==> s.scans[k] == row)
    && (forall k :: 0 <= k < |s.pages| && s.pages[k].scanId != row.id ==> s.pages[k].matrixKey !in keys)
  }

  /** The scan, its rows and its matrices are as before. */
  ghost predicate Same(s: Store, s': Store, row: ScanRow, keys: set<Key>) {
    && (row in s'.scans <==> row in s.scans) && Rows(s', row.id) == Rows(s, row.id)
    && forall key :: key in keys && key in s.mats ==> key in s'.mats && s'.mats[key] == s.mats[key]
  }

  ghost predicate Emptied(s: Store, row: ScanRow) { row !in s.scans && Rows(s, row.id) == [] }

  /** A deletion removes no matrix of another scan. */
  lemma QueriedKeys(s: Store, id: Id, row: ScanRow, keys: set<Key>)
    requires Apart(s, row, keys) && id != row.id
    ensures MatrixKeys(PagesForScan(s, id)) !! keys
  {
    var rows := PagesForScan(s, id);
    forall key | key in MatrixKeys(rows)
      ensures key !in keys
    {
      KeyHasRow(rows, key);
      var r :| r in rows && r.matrixKey == key;
      assert r in multiset(rows);
      FilterMember(RowOf(id), s.pages, r);
      hide *;
    }
  }

  lemma ApartFiltered(s: Store, s': Store, row: ScanRow, keys: set<Key>)
    requires Apart(s, row, keys)
    requires forall x :: x in s'.scans ==> x in s.scans
    requires forall r :: r in s'.pages ==> r in s.pages
    ensures Apart(s', row, keys)
  {
    forall k | 0 <= k < |s'.scans| && s'.scans[k].id == row.id
      ensures s'.scans[k] == row
    {
      assert s'.scans[k] in s.scans;
    }
    forall k | 0 <= k < |s'.pages| && s'.pages[k].scanId != row.id
      ensures s'.pages[k].matrixKey !in keys
    {
      assert s'.pages[k] in s.pages;
    }
  }

  /** The tables without one scan. */
  lemma TablesWithout(s: Store, id: Id, row: ScanRow)
    ensures var scans, pages := Filter(ScanNot(id), s.scans), Filter(RowNotOf(id), s.pages);
            && (forall x :: x in scans <==> x in s.scans && x.id != id)
            && (forall r :: r in pages <==> r in s.pages && r.scanId != id)
            && Filter(RowOf(row.id), pages) == if id == row.id then [] else Rows(s, row.id)
  {
    forall x
      ensures x in Filter(ScanNot(id), s.scans) <==> x in s.scans && x.id != id
    {
      FilterMember(ScanNot(id), s.scans, x);
    }
    forall r
      ensures r in Filter(RowNotOf(id), s.pages) <==> r in s.pages && r.scanId != id
    {
      FilterMember(RowNotOf(id), s.pages, r);
    }
    FilterTwice(RowOf(row.id), RowNotOf(id), s.pages);
    hide Filter;
  }

  lemma Without(s: Store, s': Store, id: Id, row: ScanRow, keys: set<Key>)
    requires Apart(s, row, keys)
    requires s'.scans == Filter(ScanNot(id), s.scans) && s'.pages == Filter(RowNotOf(id), s.pages)
    requires id != row.id ==> forall key :: key in keys && key in s.mats ==> key in s'.mats && s'.mats[key] == s.mats[key]
    ensures Apart(s', row, keys) && if id == row.id then Emptied(s', row) else Same(s, s', row, keys)
  {
    TablesWithout(s, id, row);
    ApartFiltered(s, s', row, keys);
    hide Filter, Apart;
  }

  lemma DeleteApart(s: Store, id: Id, queryWorks: bool, row: ScanRow, keys: set<Key>)
    requires Apart(s, row, keys)
    ensures var s' := Delete(s, id, queryWorks);
            Apart(s', row, keys) && if id == row.id then Emptied(s', row) else Same(s, s', row, keys)
  {
    var s' := Delete(s, id, queryWorks);
    DeleteIs(s, id, queryWorks);
    if id != row.id { QueriedKeys(s, id, row, keys); }
    hide Filter, PagesForScan, Delete, MatrixKeys, Apart;
    Without(s, s', id, row, keys);
  }

  lemma {:induction false} DeleteEachApart(s: Store, rows: seq<ScanRow>, bad: set<Id>, row: ScanRow, keys: set<Key>)
    requires Apart(s, row, keys) && forall k :: 0 <= k < |rows| && rows[k].id == row.id ==> rows[k] == row
    ensures var s' := DeleteEach(s, rows, bad);
            Apart(s', row, keys) && if row in rows then Emptied(s', row) else Same(s, s', row, keys)
  {
    if rows != [] {
      var init, last := rows[..|rows| - 1], rows[|rows| - 1];
      assert rows == init + [last];
      hide Apart, Delete, Rows;
      DeleteEachApart(s, init, bad, row, keys);
      DeleteApart(DeleteEach(s, init, bad), last.id, last.id !in bad, row, keys);
    }
  }

  lemma PurgeApart(s: Store, t: int, listWorks: bool, bad: set<Id>, row: ScanRow, keys: set<Key>)
    requires Apart(s, row, keys)
    ensures var s' := Purge(s, t, listWorks, bad);
            && Apart(s', row, keys)
            && if listWorks && row.createdAt < t && row in s.scans then Emptied(s', row) else Same(s, s', row, keys)
  {
    var rows := if listWorks then Filter(CreatedBefore(t), s.scans) else [];
    FilterMember(CreatedBefore(t), s.scans, row);
    forall k | 0 <= k < |rows| && rows[k].id == row.id
      ensures rows[k] == row
    {
      FilterMember(CreatedBefore(t), s.scans, rows[k]);
      assert rows[k] in rows;
    }
    hide Filter, Apart, Rows;
    DeleteEachApart(s, rows, bad, row, keys);
  }

  lemma CreatedApart(s: Store, created: ScanRow, row: ScanRow, keys: set<Key>)
    requires Apart(s, row, keys) && created.id != row.id
    ensures var s' := s.(scans := s.scans + [created]); Apart(s', row, keys) && Same(s, s', row, keys)
  {
    hide Filter;
  }

  /** What one page of a save changes, whether it is stored or not. */
  lemma PageChanges(libs: Libs, s: Store, id: Id, index: nat, i: PageInput)
    requires Int32Header(i.page)
    ensures var s' := TrySave(libs, s, id, index, i).store;
            && s'.scans == s.scans
            && (s'.pages == s.pages || s'.pages == s.pages + [PageRow(i.matrixKey, i.pictureKey, index, id)])
            && (s'.mats == s.mats || (i.matrixKey in s'.mats && s'.mats == s.mats[i.matrixKey := s'.mats[i.matrixKey]]))
  {
    hide SetMatrix;
  }

  lemma PageApart(libs: Libs, s: Store, id: Id, index: nat, i: PageInput, row: ScanRow, keys: set<Key>)
    requires Apart(s, row, keys) && id != row.id && i.matrixKey !in keys && Int32Header(i.page)
    ensures var s' := TrySave(libs, s, id, index, i).store; Apart(s', row, keys) && Same(s, s', row, keys)
  {
    hide TrySave, Filter;
    PageChanges(libs, s, id, index, i);
    FilterPush(RowOf(row.id), s.pages, PageRow(i.matrixKey, i.pictureKey, index, id));
  }

  /** An event of another request leaves the scan alone, unless it is a purge that finds it. */
  lemma EventApart(libs: Libs, s: Store, e: Event, row: ScanRow, keys: set<Key>)
    requires Apart(s, row, keys) && Foreign(e, row.id, keys)
    ensures var s' := Happen(libs, s, e);
            Apart(s', row, keys) && if Hits(e, row) && row in s.scans then Emptied(s', row) else Same(s, s', row, keys)
  {
    hide Apart, Rows, Delete, Purge, Load, Cleaned, TrySave;
    match e {
      case CreateScan(created) => CreatedApart(s, created, row, keys);
      case StorePage(id, index, input) => PageApart(libs, s, id, index, input, row, keys);
      case CleanUp(id, savedMats, savedImages) => CleanApart(s, id, savedMats, savedImages, row, keys);
      case DeleteOne(id, queryWorks) => DeleteApart(s, id, queryWorks, row, keys);
      case LoadOne(id, queries, unreadable) =>
        LoadEffect(libs, s, id, queries, unreadable);
        DeleteApart(s, id, queries.1, row, keys);
      case PurgeBefore(t, listWorks, bad) => PurgeApart(s, t, listWorks, bad, row, keys);
      case LoseFiles(lostMats, lostPictures) => LoseApart(s, lostMats, lostPictures, row, keys);
    }
  }

  lemma CleanApart(s: Store, id: Id, savedMats: set<Key>, savedImages: set<Key>, row: ScanRow, keys: set<Key>)
    requires Apart(s, row, keys) && id != row.id && savedMats !! keys
    ensures var s' := Cleaned(s, id, savedMats, savedImages); Apart(s', row, keys) && Same(s, s', row, keys)
  {
    hide Filter, Apart;
    Without(s, Cleaned(s, id, savedMats, savedImages), id, row, keys);
  }

  lemma LoseApart(s: Store, lostMats: set<Key>, lostPictures: set<Key>, row: ScanRow, keys: set<Key>)
    requires Apart(s, row, keys) && lostMats !! keys
    ensures var s' := s.(mats := s.mats - lostMats, pictures := s.pictures - lostPictures);
            Apart(s', row, keys) && Same(s, s', row, keys)
  {
    hide Filter;
  }

  lemma {:induction false} EventsApart(libs: Libs, s: Store, events: seq<Event>, row: ScanRow, keys: set<Key>)
    requires Apart(s, row, keys) && AllForeign(events, row.id, keys)
    ensures var s' := HappenAll(libs, s, events, row.id, keys);
            Apart(s', row, keys) && if Hit(events, row) && row in s.scans then Emptied(s', row) else Same(s, s', row, keys)
  {
    if events != [] {
      var init, last := events[..|events| - 1], events[|events| - 1];
      HitOfLast(events, row);
      hide Apart, Rows, Happen, Hits, Hit, Foreign;
      EventsApart(libs, s, init, row, keys);
      EventApart(libs, HappenAll(libs, s, init, row.id, keys), last, row, keys);
    }
  }

  lemma HitOfLast(events: seq<Event>, row: ScanRow)
    requires events != []
    ensures Hit(events, row) <==> Hit(events[..|events| - 1], row) || Hits(events[|events| - 1], row)
  {
    var init := events[..|events| - 1];
    if k :| 0 <= k < |events| && Hits(events[k], row) {
      assert k < |init| ==> Hits(init[k], row);
    }
    if k :| 0 <= k < |init| && Hits(init[k], row) { assert Hits(events[k], row); }
  }

  // ----- A save with gaps

  /** The events before each page of the save, after its scan was created. */
  ghost predicate Overlapping(gaps: seq<seq<Event>>, id: Id, keys: set<Key>) {
    forall k :: 0 <= k < |gaps| ==> AllForeign(gaps[k], id, keys)
  }

  /** The store after a save of pages that can all be stored. */
  ghost function Interleaved(libs: Libs, s: Store, row: ScanRow, inputs: seq<PageInput>, gaps: seq<seq<Event>>,
                             keys: set<Key>): Store
    requires |gaps| == |inputs| && Encodable(inputs) && Overlapping(gaps, row.id, keys)
  {
    if inputs == [] then s.(scans := s.scans + [row])
    else
      var n := |inputs| - 1;
      var before := Interleaved(libs, s, row, inputs[..n], gaps[..n], keys);
      TrySave(libs, HappenAll(libs, before, gaps[n], row.id, keys), row.id, n, inputs[n]).store
  }

  /** A purge finds the scan before the save is over. */
  predicate Purged(gaps: seq<seq<Event>>, row: ScanRow) {
    exists k :: 0 <= k < |gaps| && Hit(gaps[k], row)
  }

  /** How many pages were stored when the first such purge came, if one did. */
  function Cut(gaps: seq<seq<Event>>, row: ScanRow): (n: nat)
    ensures n < |gaps| || n == 0
  {
    if gaps == [] then 0
    else
      var n := |gaps| - 1;
      if Hit(gaps[n], row) && !Purged(gaps[..n], row) then n else Cut(gaps[..n], row)
  }

  lemma PurgedLast(gaps: seq<seq<Event>>, row: ScanRow)
    requires gaps != []
    ensures Purged(gaps, row) <==> Purged(gaps[..|gaps| - 1], row) || Hit(gaps[|gaps| - 1], row)
  {
    var init := gaps[..|gaps| - 1];
    if k :| 0 <= k < |gaps| && Hit(gaps[k], row) {
      assert k < |init| ==> Hit(init[k], row);
    }
    if k :| 0 <= k < |init| && Hit(init[k], row) { assert Hit(gaps[k], row); }
  }

  /** The rows from `from` on are there, and their files decode to their pages. */
  ghost predicate HasPages(libs: Libs, s: Store, id: Id, inputs: seq<PageInput>, from: nat) {
    && from <= |inputs| && Rows(s, id) == PageRows(id, inputs)[from..]
    && forall k :: from <= k < |inputs| ==>
         && inputs[k].matrixKey in s.mats
         && FromM4t(libs, s.mats[inputs[k].matrixKey]) == Success(inputs[k].page.(kind := Gray))
  }

  lemma SameHasPages(libs: Libs, s: Store, s': Store, row: ScanRow, inputs: seq<PageInput>, from: nat, keys: set<Key>)
    requires HasPages(libs, s, row.id, inputs, from) && Same(s, s', row, keys)
    requires forall k :: 0 <= k < |inputs| ==> inputs[k].matrixKey in keys
    ensures HasPages(libs, s', row.id, inputs, from)
  {
    hide FromM4t, Rows, PageRows;
  }

  lemma EmptiedHasPages(libs: Libs, s: Store, row: ScanRow, inputs: seq<PageInput>)
    requires Emptied(s, row)
    ensures HasPages(libs, s, row.id, inputs, |inputs|)
  {
    hide FromM4t, Rows;
  }

  /** The store with one more page of the scan. */
  ghost predicate OneMore(s: Store, s': Store, last: PageRow, file: seq<Byte>) {
    s'.scans == s.scans && s'.pages == s.pages + [last] && s'.mats == s.mats[last.matrixKey := file]
  }

  lemma RowsGrowByOne(s: Store, s': Store, id: Id, inputs: seq<PageInput>, n: nat, from: nat, last: PageRow)
    requires n < |inputs| && from <= n && last == PageRow(inputs[n].matrixKey, inputs[n].pictureKey, n, id)
    requires s'.pages == s.pages + [last] && Rows(s, id) == PageRows(id, inputs[..n])[from..]
    ensures Rows(s', id) == PageRows(id, inputs[..n + 1])[from..]
  {
    FilterPush(RowOf(id), s.pages, last);
    PageRowsGrow(id, inputs, n);
    hide Filter, PageRows;
    assert (PageRows(id, inputs[..n]) + [last])[from..] == PageRows(id, inputs[..n])[from..] + [last];
  }

  lemma OneMoreHasPages(libs: Libs, s: Store, s': Store, id: Id, inputs: seq<PageInput>, n: nat, from: nat, file: seq<Byte>)
    requires n < |inputs| && HasPages(libs, s, id, inputs[..n], from)
    requires OneMore(s, s', PageRow(inputs[n].matrixKey, inputs[n].pictureKey, n, id), file)
    requires FromM4t(libs, file) == Success(inputs[n].page.(kind := Gray))
    requires forall k :: 0 <= k < n ==> inputs[k].matrixKey != inputs[n].matrixKey
    ensures HasPages(libs, s', id, inputs[..n + 1], from)
  {
    hide FromM4t, Rows, PageRows;
    RowsGrowByOne(s, s', id, inputs, n, from, PageRow(inputs[n].matrixKey, inputs[n].pictureKey, n, id));
  }

  lemma OneMoreApart(s: Store, s': Store, last: PageRow, file: seq<Byte>, row: ScanRow, keys: set<Key>)
    requires Apart(s, row, keys) && OneMore(s, s', last, file) && last.scanId == row.id
    ensures Apart(s', row, keys)
  {
  }

  /** The save stores one more page. */
  lemma PageAdded(libs: Libs, s: Store, row: ScanRow, inputs: seq<PageInput>, n: nat, from: nat, keys: set<Key>)
    requires libs.Lawful() && n < |inputs| && Storable(inputs[n].page) && Outcome(libs, inputs[n]).Saved?
    requires HasPages(libs, s, row.id, inputs[..n], from) && Apart(s, row, keys)
    requires forall k :: 0 <= k < n ==> inputs[k].matrixKey != inputs[n].matrixKey
    ensures var s' := TrySave(libs, s, row.id, n, inputs[n]).store;
            HasPages(libs, s', row.id, inputs[..n + 1], from) && Apart(s', row, keys) && s'.scans == s.scans
  {
    TrySaveOutcome(libs, s, row.id, n, inputs[n]);
    OutcomeDecodes(libs, inputs[n]);
    hide TrySave, Outcome, FromM4t, HasPages, Apart, Libs.Lawful, Storable;
    var s', file := TrySave(libs, s, row.id, n, inputs[n]).store, Outcome(libs, inputs[n]).file;
    OneMoreHasPages(libs, s, s', row.id, inputs, n, from, file);
    OneMoreApart(s, s', PageRow(inputs[n].matrixKey, inputs[n].pictureKey, n, row.id), file, row, keys);
  }

  /** Which pages the save leaves, for every interference. */
  lemma {:induction false} PagesLeft(libs: Libs, s: Store, row: ScanRow, inputs: seq<PageInput>, gaps: seq<seq<Event>>,
                                     keys: set<Key>)
    requires libs.Lawful() && AllSaved(libs, inputs) && forall k :: 0 <= k < |inputs| ==> Storable(inputs[k].page)
    requires forall i, j :: 0 <= i < j < |inputs| ==> inputs[i].matrixKey != inputs[j].matrixKey
    requires forall k :: 0 <= k < |inputs| ==> inputs[k].matrixKey in keys
    requires Apart(s.(scans := s.scans + [row]), row, keys) && Rows(s, row.id) == []
    requires |gaps| == |inputs| && Overlapping(gaps, row.id, keys)
    ensures var s' := Interleaved(libs, s, row, inputs, gaps, keys);
            && Apart(s', row, keys) && (row in s'.scans <==> !Purged(gaps, row))
            && HasPages(libs, s', row.id, inputs, Cut(gaps, row))
  {
    hide Rows, Apart, TrySave, Outcome, FromM4t, HasPages, Same, Emptied, HappenAll, Hit, Libs.Lawful, Storable;
    if inputs == [] {
      NoPages(libs, s, row);
    } else {
      var n := |inputs| - 1;
      PagesLeft(libs, s, row, inputs[..n], gaps[..n], keys);
      PurgedLast(gaps, row);
      GapAndPage(libs, Interleaved(libs, s, row, inputs[..n], gaps[..n], keys), row, inputs, n, gaps[n],
                 Cut(gaps[..n], row), keys);
      assert inputs[..n + 1] == inputs;
    }
  }

  lemma NoPages(libs: Libs, s: Store, row: ScanRow)
    requires Rows(s, row.id) == []
    ensures var s' := s.(scans := s.scans + [row]); HasPages(libs, s', row.id, [], 0) && row in s'.scans
  {
    hide Filter, FromM4t;
    assert (s.scans + [row])[|s.scans|] == row;
  }

  /** One gap, and the page after it. */
  lemma GapAndPage(libs: Libs, s: Store, row: ScanRow, inputs: seq<PageInput>, n: nat, gap: seq<Event>, from: nat, keys: set<Key>)
    requires libs.Lawful() && n < |inputs| && Storable(inputs[n].page) && Outcome(libs, inputs[n]).Saved?
    requires HasPages(libs, s, row.id, inputs[..n], from) && Apart(s, row, keys) && AllForeign(gap, row.id, keys)
    requires forall k :: 0 <= k < n ==> inputs[k].matrixKey != inputs[n].matrixKey && inputs[k].matrixKey in keys
    ensures var found := Hit(gap, row) && row in s.scans;
            var s' := TrySave(libs, HappenAll(libs, s, gap, row.id, keys), row.id, n, inputs[n]).store;
            && Apart(s', row, keys) && (row in s'.scans <==> row in s.scans && !found)
            && HasPages(libs, s', row.id, inputs[..n + 1], if found then n else from)
  {
    hide Rows, Apart, TrySave, Outcome, FromM4t, HasPages, HappenAll, Hit, Libs.Lawful, Storable;
    EventsApart(libs, s, gap, row, keys);
    var mid := HappenAll(libs, s, gap, row.id, keys);
    if Hit(gap, row) && row in s.scans {
      EmptiedHasPages(libs, mid, row, inputs[..n]);
      PageAdded(libs, mid, row, inputs, n, n, keys);
    } else {
      SameHasPages(libs, s, mid, row, inputs[..n], from, keys);
      PageAdded(libs, mid, row, inputs, n, from, keys);
    }
  }

  // ----- What an overlapped save amounts to

  /** The first purge that finds the scan decides the cut. */
  lemma {:induction false} CutIsFirst(gaps: seq<seq<Event>>, row: ScanRow)
    ensures if Purged(gaps, row) then Cut(gaps, row) < |gaps| && Hit(gaps[Cut(gaps, row)], row) else Cut(gaps, row) == 0
    ensures forall k :: 0 <= k < Cut(gaps, row) ==> !Hit(gaps[k], row)
  {
    if gaps != [] {
      hide Hit;
      var init := gaps[..|gaps| - 1];
      CutIsFirst(init, row);
      PurgedLast(gaps, row);
      assert forall k :: 0 <= k < |init| ==> init[k] == gaps[k];
    }
  }

  lemma FreshIsApart(s: Store, row: ScanRow, inputs: seq<PageInput>)
    requires FreshNames(s, row.id, inputs)
    ensures Apart(s.(scans := s.scans + [row]), row, KeysOfMatrices(inputs)) && Rows(s, row.id) == []
    ensures forall k :: 0 <= k < |inputs| ==> inputs[k].matrixKey in KeysOfMatrices(inputs)
  {
    FilterNone(RowOf(row.id), s.pages);
    forall k | 0 <= k < |s.pages|
      ensures s.pages[k].matrixKey !in KeysOfMatrices(inputs)
    {
      KeyOfRow(s.pages, k);
    }
    forall k | 0 <= k < |inputs|
      ensures inputs[k].matrixKey in KeysOfMatrices(inputs)
    {
      assert inputs[k] in inputs;
    }
  }

  /** Pages that can all be stored, with fresh names, and events of other requests only. */
  ghost predicate Overlapped(libs: Libs, s: Store, row: ScanRow, inputs: seq<PageInput>, gaps: seq<seq<Event>>) {
    && libs.Lawful() && FreshNames(s, row.id, inputs)
    && AllSaved(libs, inputs) && (forall k :: 0 <= k < |inputs| ==> Storable(inputs[k].page))
    && |gaps| == |inputs| && Overlapping(gaps, row.id, KeysOfMatrices(inputs))
  }

  ghost function AfterOverlap(libs: Libs, s: Store, row: ScanRow, inputs: seq<PageInput>, gaps: seq<seq<Event>>): Store
    requires Overlapped(libs, s, row, inputs, gaps)
  {
    Interleaved(libs, s, row, inputs, gaps, KeysOfMatrices(inputs))
  }

  lemma OverlapLeaves(libs: Libs, s: Store, row: ScanRow, inputs: seq<PageInput>, gaps: seq<seq<Event>>)
    requires Overlapped(libs, s, row, inputs, gaps)
    ensures var s' := AfterOverlap(libs, s, row, inputs, gaps);
            && Apart(s', row, KeysOfMatrices(inputs)) && (row in s'.scans <==> !Purged(gaps, row))
            && HasPages(libs, s', row.id, inputs, Cut(gaps, row))
  {
    FreshIsApart(s, row, inputs);
    hide Interleaved, KeysOfMatrices, KeysOfPictures, Apart, Rows, HasPages, Overlapping, Purged, Cut, Libs.Lawful, Storable,
         AllSaved;
    PagesLeft(libs, s, row, inputs, gaps, KeysOfMatrices(inputs));
  }

  /** A load after the save returns the pages from the cut on. */
  lemma LoadAfterOverlap(libs: Libs, s: Store, row: ScanRow, inputs: seq<PageInput>, gaps: seq<seq<Event>>, again: bool)
    requires Overlapped(libs, s, row, inputs, gaps) && inputs != []
    ensures var s' := AfterOverlap(libs, s, row, inputs, gaps);
            Load(libs, s', row.id, (true, again), {}) == Loading(s', Success(AsGray(PagesOf(inputs))[Cut(gaps, row)..]))
  {
    OverlapLeaves(libs, s, row, inputs, gaps);
    hide Overlapped, AfterOverlap, Apart;
    LoadFrom(libs, AfterOverlap(libs, s, row, inputs, gaps), row.id, inputs, Cut(gaps, row), again);
  }

  lemma LoadFrom(libs: Libs, s: Store, id: Id, inputs: seq<PageInput>, from: nat, again: bool)
    requires HasPages(libs, s, id, inputs, from) && from < |inputs|
    ensures Load(libs, s, id, (true, again), {}) == Loading(s, Success(AsGray(PagesOf(inputs))[from..]))
  {
    var rows, saved := PageRows(id, inputs)[from..], PagesOf(inputs)[from..];
    assert Ordered(rows);
    RowsReadable(libs, s, rows, saved);
    assert AsGray(PagesOf(inputs))[from..] == AsGray(saved);
    hide FromM4t, Filter, AllReadable, Matrices, AsGray, PageRows, HasPages;
  }

  /** The rows of the saved scan belong to a live scan if and only if no purge found the
      scan before its last page was stored. */
  lemma RowsLiveExactly(libs: Libs, s: Store, row: ScanRow, inputs: seq<PageInput>, gaps: seq<seq<Event>>)
    requires Overlapped(libs, s, row, inputs, gaps) && inputs != []
    ensures var s' := AfterOverlap(libs, s, row, inputs, gaps);
            (forall k :: 0 <= k < |s'.pages| && s'.pages[k].scanId == row.id ==> row.id in ScanIds(s'.scans))
            <==> !Purged(gaps, row)
  {
    OverlapLeaves(libs, s, row, inputs, gaps);
    hide Overlapped, AfterOverlap, Purged, Cut;
    LiveByRow(libs, AfterOverlap(libs, s, row, inputs, gaps), row, inputs, Cut(gaps, row), KeysOfMatrices(inputs));
  }

  lemma LiveByRow(libs: Libs, s: Store, row: ScanRow, inputs: seq<PageInput>, from: nat, keys: set<Key>)
    requires Apart(s, row, keys) && HasPages(libs, s, row.id, inputs, from) && from < |inputs|
    ensures row.id in ScanIds(s.scans) <==> row in s.scans
    ensures exists k :: 0 <= k < |s.pages| && s.pages[k].scanId == row.id
  {
    if row in s.scans {
      var k :| 0 <= k < |s.scans| && s.scans[k] == row;
      IdOfScan(s.scans, k);
    } else {
      IdAbsent(s.scans, row.id);
    }
    var r := PageRows(row.id, inputs)[from..][0];
    FilterMember(RowOf(row.id), s.pages, r);
    hide Filter, FromM4t;
  }

  /** Every page is loaded after the save if and only if no purge finds the scan between
      its first page and its last, unless one found it before the first. */
  lemma LoadIsWholeExactly(libs: Libs, s: Store, row: ScanRow, inputs: seq<PageInput>, gaps: seq<seq<Event>>, again: bool)
    requires Overlapped(libs, s, row, inputs, gaps) && inputs != []
    ensures var s' := AfterOverlap(libs, s, row, inputs, gaps);
            Load(libs, s', row.id, (true, again), {}).result == Success(AsGray(PagesOf(inputs)))
            <==> Hit(gaps[0], row) || !Purged(gaps[1..], row)
  {
    LoadAfterOverlap(libs, s, row, inputs, gaps, again);
    CutIsFirst(gaps, row);
    var all, cut := AsGray(PagesOf(inputs)), Cut(gaps, row);
    assert cut == 0 ==> all[cut..] == all;
    PurgedFirst(gaps, row);
    hide Load, Cut, AfterOverlap, AsGray, PagesOf, Hit;
  }

  lemma PurgedFirst(gaps: seq<seq<Event>>, row: ScanRow)
    requires gaps != []
    ensures Purged(gaps, row) <==> Hit(gaps[0], row) || Purged(gaps[1..], row)
  {
    hide Hit;
    if k :| 0 <= k < |gaps| && Hit(gaps[k], row) {
      assert k > 0 ==> Hit(gaps[1..][k - 1], row);
    }
    if k :| 0 <= k < |gaps[1..]| && Hit(gaps[1..][k], row) { assert Hit(gaps[k + 1], row); }
  }

  /** Without interference the steps make up the save. */
  lemma {:induction false} AloneIsSave(libs: Libs, s: Store, row: ScanRow, inputs: seq<PageInput>, gaps: seq<seq<Event>>,
                                       keys: set<Key>)
    requires AllSaved(libs, inputs) && |gaps| == |inputs| && forall k :: 0 <= k < |gaps| ==> gaps[k] == []
    ensures Saving(Interleaved(libs, s, row, inputs, gaps, keys), Success(row.id)) == Save(libs, s, row, true, inputs)
  {
    StepsWithPages(libs, s, row, inputs, gaps, keys);
    assert SavedCount(libs, inputs) == |inputs|;
    hide Interleaved, WithPages;
  }

  lemma {:induction false} StepsWithPages(libs: Libs, s: Store, row: ScanRow, inputs: seq<PageInput>, gaps: seq<seq<Event>>,
                                          keys: set<Key>)
    requires AllSaved(libs, inputs) && |gaps| == |inputs| && forall k :: 0 <= k < |gaps| ==> gaps[k] == []
    ensures Interleaved(libs, s, row, inputs, gaps, keys) == WithPages(libs, s.(scans := s.scans + [row]), row.id, inputs)
  {
    var start := s.(scans := s.scans + [row]);
    if inputs == [] {
      NoPageYet(libs, start, row.id, inputs);
      assert inputs[..0] == inputs;
    } else {
      var n := |inputs| - 1;
      StepsWithPages(libs, s, row, inputs[..n], gaps[..n], keys);
      TrySaveOutcome(libs, WithPages(libs, start, row.id, inputs[..n]), row.id, n, inputs[n]);
      OneMorePage(libs, start, row.id, inputs, n);
      assert inputs[..n + 1] == inputs;
      hide TrySave, WithPages, Outcome;
    }
  }
}
