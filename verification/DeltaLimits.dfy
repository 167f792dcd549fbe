/** Where the delta refresh falls short of a full crawl: root-level files, coarse log times, folder names that occur in
    one another, and folders left behind by a failed or narrower run. */
module DeltaLimits {
  import opened Prelude
  import opened Text
  import opened Catalog
  import opened DeltaScan
  import opened DeltaRefresh
  import opened DeltaRecovery
  import opened DeltaHistory

  // ---- Root-level files -----------------------------------------------------------------------

  lemma {:induction false} EmptyLeaf(t: Tables, id: nat, leaf: string)
    ensures ApplyLeaves(t, id, [LeafWork(leaf, LeafOutcome.Crawled([], Returns))]) == LeafPass(t, true, false)
  {
    OneLeaf(t, id, LeafWork(leaf, LeafOutcome.Crawled([], Returns)));
    assert t.files + Homed(Rows([]), id) == t.files;
  }

  lemma {:induction false} NewFolderIsEmpty(t: Tables, key: FolderKey, domain: string)
    requires TablesOk(t) && key !in t.folders
    ensures Stored(EnsureFolder(t, key, domain), key) == map[]
  {
    forall x | x in t.files ensures t.files[x].folderId != t.nextId {
      var k :| k in t.folders && t.folders[k].id == t.files[x].folderId;
    }
  }

  /** An active folder that is really a root-level file: the delta stamps it crawled and stores nothing. */
  lemma {:induction false} RootFileNeverStored(cfg: Config, t: Tables, remote: Remote, p: ParentWork)
    requires p.folder in cfg.domainOf && IsRootFile(p.folder) && Starts(p) && p.checkpoint.Saved?
    requires p.leaves == [LeafWork(p.folder, LeafOutcome.Crawled(DeltaCrawl(remote, p.folder).value, Returns))]
    requires TablesOk(t) && ParentKey(cfg, p.folder) !in t.folders
    ensures CrawledAt(ApplyParent(t, cfg, p).tables, ParentKey(cfg, p.folder)).Some?
    ensures Stored(ApplyParent(t, cfg, p).tables, ParentKey(cfg, p.folder)) == map[]
  {
    var key := ParentKey(cfg, p.folder);
    var t1 := EnsureFolder(t, key, cfg.domainOf[p.folder]);
    EmptyLeaf(t1, t1.folders[key].id, p.folder);
    assert CrawlParent(t, cfg, p) == LeafPass(t1, true, false);
    NewFolderIsEmpty(t, key, cfg.domainOf[p.folder]);
    SameIdsAtHome(t1, Checkpoint(t1, key, true, p.checkpoint.now), _ => key, key);
  }

  /** ... while a full crawl stores it. */
  lemma {:induction false} RootFileStoredByFullCrawl(t: Tables, key: FolderKey, remote: Remote, folder: string,
                                                     root: Listed, domain: string, now: int)
    requires IsRootFile(folder) && root.fileId !in t.files
    ensures
      var crawl := CrawlFolder(remote, map[folder := root], folder).value;
      var saved := SaveFolder(t, key, domain, CompileFolderMetadata(crawl), crawl, now);
      saved.Some? && Stored(saved.value, key) == map[root.fileId := root.data]
  {
    var files := [root];
    OneFile(root);
    assert SaveFolder(t, key, domain, CompileFolderMetadata(files), files, now).Some?;
    SaveFolderStores(t, key, domain, files, now);
  }

  lemma {:induction false} OneFile(x: Listed)
    ensures DistinctIds([x]) && Ids([x]) == {x.fileId} && Rows([x]) == map[x.fileId := x.data]
  {
    var files := [x];
    assert files[1..] == [] && Rows(files[1..]) == map[] && Ids(files[1..]) == {};
    assert DistinctIds(files[1..]);
    assert Rows(files) == map[x.fileId := x.data] + Rows(files[1..]);
  }

  // ---- Times to the second --------------------------------------------------------------------

  /** Log times are cut to the second: a folder whose logged updates all carry a date the catalogue already has, or an
      earlier one, is not marked, wherever the scan stops. */
  lemma {:induction false} StaleTimesHideUpdates(db: FileIndex, records: seq<Record>, f: string)
    requires Flat(f)
    requires forall r :: r in records && r.folder == f ==>
               var base := StripExtension(r.fileName); base in db && db[base].Some? && r.time <= db[base].value
    ensures Mark(f, f) !in Scan(db, SortNewestFirst(records), 0)
  {
    var sorted := SortNewestFirst(records);
    ScanExact(db, sorted, Mark(f, f));
    forall i | 0 <= i < |sorted| ensures !(Dirty(db, sorted[i]) && MarkOf(sorted[i]) == Mark(f, f)) {
      SortKeepsMembers(records, sorted[i]);
      assert MarkOf(sorted[i]) == Mark(sorted[i].folder, ResolveExactFolder(sorted[i].folder, sorted[i].fileName));
    }
  }

  // ---- Folder names that occur in one another -------------------------------------------------

  /** No row of the logs can count for this folder. */
  ghost predicate Uncounted(r: Run, f: string) {
    (f in r.cfg.active ==> Shadowed(r.cfg.active, f)) && forall row :: row in r.oce ==> row.folderName != Some(f)
  }

  lemma {:induction false} UncountedIsNotMarked(env: string, t: Tables, r: Run, t': Tables, f: string)
    requires Runs(env, t, r, t') && SegmentApart(t, env, f) && Flat(f) && Uncounted(r, f) &&
             CrawledAt(t, KeyOf(env, f)).Some?
    ensures Mark(f, f) !in DirtyOf(r)
  {
    if f in r.cfg.active {
      FlatFolderIsDirtyExactly(env, t, r, t', f);
      forall x | x in Records(Standard, r.cfg.active, r.std) ensures x.folder != f {
        RecordsExact(Standard, r.cfg.active, r.std, x);
        var row :| row in r.std && RecordOf(Standard, r.cfg.active, row) == Some(x);
        ShadowedExactly(r.cfg.active, f);
        AttributedExactly(r.cfg.active, row, f);
      }
      forall x | x in Records(Evolution, r.cfg.active, r.oce) ensures x.folder != f {
        RecordsExact(Evolution, r.cfg.active, r.oce, x);
      }
      NothingFound(r.cfg, r.db, Standard, r.std, f);
      NothingFound(r.cfg, r.db, Evolution, r.oce, f);
    } else {
      DirtyParentsAreActive(r.cfg, r.crawled, r.db, r.std, r.oce);
    }
  }

  lemma {:induction false} NothingFound(cfg: Config, db: FileIndex, log: Log, rows: seq<LogRow>, f: string)
    requires forall x :: x in Records(log, cfg.active, rows) ==> x.folder != f
    ensures !ScanFinds(cfg, db, log, rows, f)
  {
    var records := SortNewestFirst(Records(log, cfg.active, rows));
    forall i | 0 <= i < |records| ensures records[i].folder != f {
      SortKeepsMembers(Records(log, cfg.active, rows), records[i]);
    }
  }

  lemma {:induction false} UncountedStep(env: string, home: string -> FolderKey, f: string, w: World, e: Event,
                                         w': World)
    requires FlatDirectory(f) && FolderOk(env, home, w, f) && CatalogOk(env, home, w.tables, Listing(w.remote[f]), f)
    requires CrawledAt(w.tables, KeyOf(env, f)).Some? && Follows(env, home, f, w, e, w')
    requires e.DeltaRan? ==> Uncounted(e.run, f)
    ensures SameFolder(w.tables, w'.tables, KeyOf(env, f))
  {
    if e.DeltaRan? {
      UncountedIsNotMarked(env, w.tables, e.run, w'.tables, f);
      VisitedExactly(e.run, f);
      ServedFolder(env, home, f, w, e.run, w');
    }
  }

  lemma {:induction false} FrozenChain(ws: seq<World>, key: FolderKey, m: nat, n: nat)
    requires m <= n < |ws| && CrawledAt(ws[m].tables, key).Some?
    requires forall i :: m <= i < n && CrawledAt(ws[i].tables, key).Some? ==>
             SameFolder(ws[i].tables, ws[i + 1].tables, key)
    ensures SameFolder(ws[m].tables, ws[n].tables, key)
    decreases n
  {
    if m < n {
      FrozenChain(ws, key, m, n - 1);
      SameFolderChain(ws[m].tables, ws[n - 1].tables, ws[n].tables, key);
    }
  }

  /** Once crawled, a folder that no log row can count for is never touched again, whatever changes remotely: every run,
      of any configuration and however it goes, leaves its row and its files as they are. */
  lemma {:induction false} UncountedIsNeverRefreshed(env: string, home: string -> FolderKey, f: string, ws: seq<World>,
                                                     es: seq<Event>, m: nat, n: nat)
    requires History(env, home, f, ws, es) && m <= n <= |es| && CrawledAt(ws[m].tables, KeyOf(env, f)).Some?
    requires forall i :: m <= i < n && es[i].DeltaRan? ==> Uncounted(es[i].run, f)
    ensures SameFolder(ws[m].tables, ws[n].tables, KeyOf(env, f))
  {
    forall i | m <= i < n && CrawledAt(ws[i].tables, KeyOf(env, f)).Some?
      ensures SameFolder(ws[i].tables, ws[i + 1].tables, KeyOf(env, f))
    {
      HistoryKeepsCatalog(env, home, f, ws, es, i);
      HistoryStep(env, home, f, ws, es, i);
      UncountedStep(env, home, f, ws[i], es[i], ws[i + 1]);
    }
    FrozenChain(ws, KeyOf(env, f), m, n);
  }

  lemma {:induction false} FirstRun(env: string, home: string -> FolderKey, f: string, w: World, r: Run, w': World)
    requires FlatDirectory(f) && FolderOk(env, home, w, f) && RunStep(env, home, f, w, r, w') && Serves(w, r, f)
    requires w.tables == Tables(map[], map[], 0) && f in r.cfg.active
    ensures UpToDate(w'.tables, KeyOf(env, f), Listing(w.remote[f]))
    ensures TablesOk(w'.tables) && AtHome(w'.tables, home) && SegmentApart(w'.tables, env, f)
  {
    assert CatalogOk(env, home, w.tables, Listing(w.remote[f]), f);
    UpToDateAfterRunExactly(env, home, f, w, r, w');
    RunKeepsCatalog(env, home, f, w, r, w');
  }

  // ---- Folders left behind --------------------------------------------------------------------

  lemma {:induction false} ThreeCleanStop(db: FileIndex, records: seq<Record>)
    requires |records| >= 3 && forall i :: 0 <= i < 3 ==> !Dirty(db, records[i])
    ensures Scan(db, records, 0) == {}
  {
    assert records[1..][0] == records[1] && records[1..][1..][0] == records[2];
    assert Scan(db, records, 0) == Scan(db, records[1..], 1) == Scan(db, records[1..][1..], 2)
        == Scan(db, records[1..][1..][1..], 3);
  }

  /** The catalogue has the record's file, under some folder of the environment, at that date or later. */
  ghost predicate Known(t: Tables, env: string, x: Record) {
    exists g, y :: Holds(t, KeyOf(env, g), y) && StripExtension(y.data.name) == StripExtension(x.fileName) &&
                   y.data.lastUpdated.Some? && x.time <= y.data.lastUpdated.value
  }

  lemma {:induction false} KnownIsClean(t: Tables, cfg: Config, db: FileIndex, x: Record)
    requires FileIndexOf(db, t, cfg) && BaseNamesApart(t, cfg) && Known(t, cfg.env, x)
    ensures !Dirty(db, x)
  {
    var g, y :| Holds(t, KeyOf(cfg.env, g), y) && StripExtension(y.data.name) == StripExtension(x.fileName) &&
                y.data.lastUpdated.Some? && x.time <= y.data.lastUpdated.value;
    HeldIsIndexed(t, cfg, db, g, y);
  }

  /** Where the three newest records of the log are known, a run marks no folder that has been crawled. */
  lemma {:induction false} KnownNewestHideTheRest(env: string, t: Tables, r: Run, t': Tables, f: string)
    requires Runs(env, t, r, t') && SegmentApart(t, env, f) && Flat(f) && f in r.cfg.active &&
             CrawledAt(t, KeyOf(env, f)).Some?
    requires BaseNamesApart(t, r.cfg) && r.oce == []
    requires var records := SortNewestFirst(Records(Standard, r.cfg.active, r.std));
             |records| >= 3 && forall i :: 0 <= i < 3 ==> Known(t, env, records[i])
    ensures Mark(f, f) !in DirtyOf(r)
  {
    var records := SortNewestFirst(Records(Standard, r.cfg.active, r.std));
    forall i | 0 <= i < 3 ensures !Dirty(r.db, records[i]) {
      KnownIsClean(t, r.cfg, r.db, records[i]);
    }
    ThreeCleanStop(r.db, records);
    FlatFolderIsDirtyExactly(env, t, r, t', f);
    ScanFindsExactly(r.cfg, r.db, Standard, r.std, f);
    NothingFound(r.cfg, r.db, Evolution, r.oce, f);
  }
}
