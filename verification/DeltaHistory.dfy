/** The delta refresh refines the full crawl over whole histories of remote changes and runs. */
module DeltaHistory {
  import opened Prelude
  import opened Text
  import opened Catalog
  import opened DeltaScan
  import opened DeltaRefresh
  import opened DeltaRecovery

  /** A remote file as a crawl would list it, and the time the export log gives for its last update. */
  datatype RemoteFile = RemoteFile(listed: Listed, logTime: int)

  type Remote = map<string, seq<RemoteFile>>

  function Listing(files: seq<RemoteFile>): (r: seq<Listed>)
    ensures |r| == |files|
  {
    seq(|files|, i requires 0 <= i < |files| => files[i].listed)
  }

  // ---- The two crawlers' view of one folder ---------------------------------------------------

  /** Names that are root-level files rather than directories. */
  predicate IsRootFile(name: string) {
    EndsWith(name, ".csv") || EndsWith(name, ".zip") || EndsWith(name, ".xml") || EndsWith(name, ".xlsx") ||
    EndsWith(name, ".xls")
  }

  /** They end in one of five extensions, as written. */
  lemma {:induction false} RootFileExactly(name: string)
    ensures IsRootFile(name) <==>
            exists n :: 0 <= n <= |name| && name[n..] in {".csv", ".zip", ".xml", ".xlsx", ".xls"}
  {
    if IsRootFile(name) {
      var n := |name| - if EndsWith(name, ".xlsx") then 5 else 4;
      assert 0 <= n <= |name| && name[n..] in {".csv", ".zip", ".xml", ".xlsx", ".xls"};
    }
  }

  /** `crawl_metadata_folder`: None when the listing request fails. */
  function CrawlFolder(remote: Remote, rootFiles: map<string, Listed>, folder: string): Option<seq<Listed>> {
    if IsRootFile(folder) then Some(if folder in rootFiles then [rootFiles[folder]] else [])
    else if folder in remote then Some(Listing(remote[folder]))
    else None
  }

  /** The delta crawls its leaves without the root listing. */
  function DeltaCrawl(remote: Remote, folder: string): Option<seq<Listed>> {
    CrawlFolder(remote, map[], folder)
  }

  /** Both crawlers see the same records of a folder exactly when it is not a root-level file that exists. */
  lemma {:induction false} DeltaSeesWhatFullCrawlSees(remote: Remote, rootFiles: map<string, Listed>, folder: string)
    ensures DeltaCrawl(remote, folder) == CrawlFolder(remote, rootFiles, folder) <==>
            !(IsRootFile(folder) && folder in rootFiles)
  {
    if IsRootFile(folder) && folder in rootFiles {
      assert |[rootFiles[folder]]| == 1;
    }
  }

  // ---- The world around one folder ------------------------------------------------------------

  datatype World = World(tables: Tables, remote: Remote, std: seq<LogRow>, oce: seq<LogRow>, clock: int)

  /** A directory whose files lie directly in it. */
  predicate FlatDirectory(f: string) {
    IsSegment(f) && Flat(f) && !IsRootFile(f)
  }

  /** The remote files of the folder: identifiers that belong to it, and no timestamp in the future or before the
      log's. */
  ghost predicate FolderOk(env: string, home: string -> FolderKey, w: World, f: string) {
    && f in w.remote && DistinctIds(Listing(w.remote[f]))
    && OwnIds(Listing(w.remote[f]), KeyOf(env, f), home)
    && forall r :: r in w.remote[f] ==>
         r.listed.data.lastUpdated.Some? && r.logTime <= r.listed.data.lastUpdated.value <= w.clock
  }

  /** A catalogue of any content: other environments, archives and folders are welcome. File rows sit under the folder
      their identifier belongs to, no other row of the environment ends in this folder's name, and what is stored under
      this folder is still listed. */
  ghost predicate CatalogOk(env: string, home: string -> FolderKey, t: Tables, listing: seq<Listed>, f: string) {
    && TablesOk(t) && AtHome(t, home) && SegmentApart(t, env, f)
    && Stored(t, KeyOf(env, f)).Keys <= Ids(listing)
  }

  /** The catalogue holds, for this folder, exactly what a full crawl would store. */
  ghost predicate UpToDate(t: Tables, key: FolderKey, listing: seq<Listed>) {
    && key in t.folders && t.folders[key].crawledAt.Some?
    && Stored(t, key) == Rows(listing)
    && AggregatesAgree(t, key)
  }

  predicate Holds(t: Tables, key: FolderKey, x: Listed) {
    x.fileId in Stored(t, key) && Stored(t, key)[x.fileId] == x.data
  }

  // ---- What can happen ------------------------------------------------------------------------

  /** Files are added or updated, all after the clock so far; none is removed from this folder. */
  ghost predicate RemoteStep(env: string, home: string -> FolderKey, f: string, w: World, w': World) {
    && w'.tables == w.tables && w'.clock >= w.clock
    && f in w.remote && FolderOk(env, home, w', f)
    && Ids(Listing(w.remote[f])) <= Ids(Listing(w'.remote[f]))
    && forall r :: r in w'.remote[f] ==> r in w.remote[f] || r.logTime > w.clock
  }

  /** The crawls of this folder, as far as they succeed, list only what is there. */
  ghost predicate ListsWithin(p: ParentWork, f: string, ids: set<string>) {
    p.folder == f ==> forall l :: l in p.leaves && l.outcome.Crawled? ==> Ids(l.outcome.files) <= ids
  }

  /** A delta run under its own configuration, failing or cut off anywhere; crawls list each file under its own
      folder. */
  ghost predicate RunStep(env: string, home: string -> FolderKey, f: string, w: World, r: Run, w': World)
    requires f in w.remote
  {
    && w' == w.(tables := w'.tables) && r.std == w.std && r.oce == w.oce
    && Runs(env, w.tables, r, w'.tables)
    && forall p :: p in r.work ==> ListsOwnFiles(r.cfg, p, home) && ListsWithin(p, f, Ids(Listing(w.remote[f])))
  }

  /** A parent's steps all take effect, and each of its crawls lists what is there. */
  ghost predicate Honest(remote: Remote, p: ParentWork) {
    && Starts(p) && p.checkpoint.Saved?
    && forall l :: l in p.leaves ==>
         DeltaCrawl(remote, l.leaf).Some? && l.outcome == LeafOutcome.Crawled(DeltaCrawl(remote, l.leaf).value, Returns)
  }

  /** If the run works on this folder it gets there, and does it honestly; the other folders may fail as they like. */
  ghost predicate Serves(w: World, r: Run, f: string) {
    forall i :: 0 <= i < |r.work| && r.work[i].folder == f ==> Reached(r.work, i) && Honest(w.remote, r.work[i])
  }

  // ---- One run, exactly -----------------------------------------------------------------------

  /** What an honest turn of a flat folder comes to: list it, store the listing, checkpoint. */
  ghost predicate CrawlsWhole(p: ParentWork, listing: seq<Listed>) {
    && Starts(p) && p.checkpoint.Saved?
    && p.leaves == [LeafWork(p.folder, LeafOutcome.Crawled(listing, Returns))]
  }

  /** With a flat folder every mark under it is the folder itself. */
  lemma {:induction false} MarksAreFlat(r: Run, m: Mark)
    requires m in DirtyOf(r) && Flat(m.parent)
    ensures m.leaf == m.parent
  {
    if m in Scan(r.db, SortNewestFirst(Records(Standard, r.cfg.active, r.std)), 0) {
      MarkedFromRecords(Standard, r.cfg, r.db, r.std, m);
    } else if m in Scan(r.db, SortNewestFirst(Records(Evolution, r.cfg.active, r.oce)), 0) {
      MarkedFromRecords(Evolution, r.cfg, r.db, r.oce, m);
    }
    assert forall x: Record :: MarkOf(x) == Mark(x.folder, ResolveExactFolder(x.folder, x.fileName));
  }

  lemma {:induction false} OnlyLeaf(leaves: seq<LeafWork>, only: LeafWork)
    requires leaves != [] && forall l :: l in leaves ==> l == only
    requires forall i, j :: 0 <= i < j < |leaves| ==> leaves[i].leaf != leaves[j].leaf
    ensures leaves == [only]
  {
    forall i | 0 <= i < |leaves| ensures leaves[i] == only {
      assert leaves[i] in leaves;
    }
    assert |leaves| > 1 ==> leaves[0].leaf != leaves[1].leaf;
  }

  lemma {:induction false} HonestCrawlsWhole(w: World, r: Run, p: ParentWork)
    requires Enumerates(r.work, DirtyOf(r)) && p in r.work && Honest(w.remote, p)
    requires FlatDirectory(p.folder) && p.folder in w.remote
    ensures CrawlsWhole(p, Listing(w.remote[p.folder]))
  {
    var only := LeafWork(p.folder, LeafOutcome.Crawled(Listing(w.remote[p.folder]), Returns));
    forall l | l in p.leaves ensures l == only {
      MarksAreFlat(r, Mark(p.folder, l.leaf));
    }
    OnlyLeaf(p.leaves, only);
  }

  ghost predicate Visits(work: seq<ParentWork>, f: string) {
    exists i :: 0 <= i < |work| && work[i].folder == f
  }

  /** A flat folder is worked on exactly when it is marked under itself. */
  lemma {:induction false} VisitedExactly(r: Run, f: string)
    requires Enumerates(r.work, DirtyOf(r)) && Flat(f)
    ensures Visits(r.work, f) <==> Mark(f, f) in DirtyOf(r)
  {
    if i :| 0 <= i < |r.work| && r.work[i].folder == f {
      var p := r.work[i];
      assert p in r.work && p.leaves[0] in p.leaves;
      MarksAreFlat(r, Mark(f, p.leaves[0].leaf));
    }
    if Mark(f, f) in DirtyOf(r) {
      var p :| p in r.work && p.folder == Mark(f, f).parent;
      var i :| 0 <= i < |r.work| && r.work[i] == p;
    }
  }

  /** Storing a listing over rows that are all in it leaves exactly the listing. */
  lemma {:induction false} UpsertStores(t: Tables, key: FolderKey, listing: seq<Listed>)
    requires key in t.folders && DistinctIds(listing) && Stored(t, key).Keys <= Ids(listing)
    ensures Stored(UpsertLeaf(t, t.folders[key].id, listing).value, key) == Rows(listing)
  {
    RowsLookup(listing);
    UpsertOverrides(t, t.folders[key].id, listing);
    OverriddenWhole(Stored(t, key), Rows(listing));
  }

  lemma {:induction false} OverriddenWhole<K, V>(a: map<K, V>, b: map<K, V>)
    requires a.Keys <= b.Keys
    ensures a + b == b
  {
  }

  /** Its effect on the tables, step by step. */
  ghost function AfterWhole(t: Tables, cfg: Config, p: ParentWork, listing: seq<Listed>, now: int): Tables
    requires p.folder in cfg.domainOf && DistinctIds(listing)
  {
    var key := ParentKey(cfg, p.folder);
    var t1 := EnsureFolder(t, key, cfg.domainOf[p.folder]);
    Checkpoint(UpsertLeaf(t1, t1.folders[key].id, listing).value, key, true, now)
  }

  lemma {:induction false} OneLeaf(t: Tables, id: nat, l: LeafWork)
    requires LeafSucceeds(l)
    ensures ApplyLeaves(t, id, [l]) == LeafPass(UpsertLeaf(t, id, l.outcome.files).value, true, false)
  {
    assert [l][1..] == [];
    assert ApplyLeaves(AfterLeaf(t, id, l), id, []) == LeafPass(AfterLeaf(t, id, l), true, false);
  }

  lemma {:induction false} WholeTurn(t: Tables, cfg: Config, p: ParentWork, listing: seq<Listed>)
    requires p.folder in cfg.domainOf && CrawlsWhole(p, listing) && DistinctIds(listing)
    ensures ApplyParent(t, cfg, p).tables == AfterWhole(t, cfg, p, listing, p.checkpoint.now)
  {
    var key := ParentKey(cfg, p.folder);
    var t1 := EnsureFolder(t, key, cfg.domainOf[p.folder]);
    OneLeaf(t1, t1.folders[key].id, p.leaves[0]);
    assert CrawlParent(t, cfg, p) == ApplyLeaves(t1, t1.folders[key].id, [p.leaves[0]]);
  }

  /** An honest turn makes a flat folder up to date. */
  lemma {:induction false} TurnMakesUpToDate(cfg: Config, t: Tables, home: string -> FolderKey, p: ParentWork,
                                             listing: seq<Listed>)
    requires p.folder in cfg.domainOf && CrawlsWhole(p, listing) && DistinctIds(listing)
    requires TablesOk(t) && AtHome(t, home) && OwnIds(listing, ParentKey(cfg, p.folder), home)
    requires Stored(t, ParentKey(cfg, p.folder)).Keys <= Ids(listing)
    ensures UpToDate(ApplyParent(t, cfg, p).tables, ParentKey(cfg, p.folder), listing)
  {
    var key, domain := ParentKey(cfg, p.folder), cfg.domainOf[p.folder];
    var t1 := EnsureFolder(t, key, domain);
    WholeTurn(t, cfg, p, listing);
    EnsureAtHome(t, key, domain, home, key);
    UpsertStores(t1, key, listing);
    UpsertAtHome(t1, key, listing, home);
    CheckpointAtHome(UpsertLeaf(t1, t1.folders[key].id, listing).value, key, true, p.checkpoint.now, home, key);
  }

  lemma {:induction false} FrameUpToDate(t: Tables, t': Tables, k: FolderKey, listing: seq<Listed>)
    requires SameFolder(t, t', k) && UpToDate(t, k, listing)
    ensures UpToDate(t', k, listing)
  {
  }

  /** The tables of a run in flight, as far as this folder is concerned. */
  ghost predicate RowsOk(t: Tables, home: string -> FolderKey, key: FolderKey, listing: seq<Listed>) {
    TablesOk(t) && AtHome(t, home) && Stored(t, key).Keys <= Ids(listing)
  }

  /** The remaining work lists each file under its own folder, and under this one only what is there. */
  ghost predicate WorkOk(cfg: Config, work: seq<ParentWork>, home: string -> FolderKey, f: string,
                         listing: seq<Listed>)
  {
    && Assigned(cfg, work)
    && (forall i, j :: 0 <= i < j < |work| ==> work[i].folder != work[j].folder)
    && forall p :: p in work ==> ListsOwnFiles(cfg, p, home) && ListsWithin(p, f, Ids(listing))
  }

  lemma {:induction false} LeavesWithin(t: Tables, key: FolderKey, leaves: seq<LeafWork>, ids: set<string>)
    requires key in t.folders && Stored(t, key).Keys <= ids
    requires forall l :: l in leaves && l.outcome.Crawled? ==> Ids(l.outcome.files) <= ids
    ensures Stored(ApplyLeaves(t, t.folders[key].id, leaves).tables, key).Keys <= ids
    decreases |leaves|
  {
    if leaves != [] {
      var l := leaves[0];
      assert l in leaves && forall m :: m in leaves[1..] ==> m in leaves;
      if l.outcome.Crawled? && DistinctIds(l.outcome.files) {
        UpsertOverrides(t, t.folders[key].id, l.outcome.files);
        RowsLookup(l.outcome.files);
      }
      LeavesWithin(AfterLeaf(t, t.folders[key].id, l), key, leaves[1..], ids);
      LeavesKeepFolders(AfterLeaf(t, t.folders[key].id, l), t.folders[key].id, leaves[1..]);
    }
  }

  lemma {:induction false} CrawlWithin(cfg: Config, t: Tables, home: string -> FolderKey, p: ParentWork,
                                       ids: set<string>)
    requires p.folder in cfg.domainOf && TablesOk(t) && AtHome(t, home) && ListsWithin(p, p.folder, ids)
    requires Stored(t, ParentKey(cfg, p.folder)).Keys <= ids
    ensures Stored(EnsureFolder(t, ParentKey(cfg, p.folder), cfg.domainOf[p.folder]), ParentKey(cfg, p.folder)).Keys <=
            ids
    ensures Stored(CrawlParent(t, cfg, p).tables, ParentKey(cfg, p.folder)).Keys <= ids
  {
    var key, domain := ParentKey(cfg, p.folder), cfg.domainOf[p.folder];
    EnsureAtHome(t, key, domain, home, key);
    LeavesWithin(EnsureFolder(t, key, domain), key, p.leaves, ids);
  }

  lemma {:induction false} OwnTurnWithin(cfg: Config, t: Tables, home: string -> FolderKey, p: ParentWork,
                                         ids: set<string>)
    requires p.folder in cfg.domainOf && TablesOk(t) && AtHome(t, home)
    requires ListsWithin(p, p.folder, ids) && Stored(t, ParentKey(cfg, p.folder)).Keys <= ids
    ensures Stored(ApplyParent(t, cfg, p).tables, ParentKey(cfg, p.folder)).Keys <= ids
  {
    var key, pass := ParentKey(cfg, p.folder), CrawlParent(t, cfg, p);
    CrawlWithin(cfg, t, home, p, ids);
    if Starts(p) && p.checkpoint.Saved? {
      SameIdsAtHome(pass.tables, Checkpoint(pass.tables, key, pass.allSucceeded, p.checkpoint.now), home, key);
    }
  }

  lemma {:induction false} ParentWithin(cfg: Config, t: Tables, home: string -> FolderKey, p: ParentWork, f: string,
                                        ids: set<string>)
    requires p.folder in cfg.domainOf && TablesOk(t) && AtHome(t, home) && ListsOwnFiles(cfg, p, home) &&
             ListsWithin(p, f, ids)
    requires Stored(t, ParentKey(cfg, f)).Keys <= ids
    ensures Stored(ApplyParent(t, cfg, p).tables, ParentKey(cfg, f)).Keys <= ids
  {
    if p.folder == f {
      OwnTurnWithin(cfg, t, home, p, ids);
    } else {
      ParentKeyInjective(cfg, f, p.folder);
      ParentFrames(t, cfg, p, home, ParentKey(cfg, f));
    }
  }

  lemma {:induction false} RestOk(cfg: Config, work: seq<ParentWork>, home: string -> FolderKey, f: string,
                                  listing: seq<Listed>)
    requires WorkOk(cfg, work, home, f, listing) && work != []
    ensures WorkOk(cfg, work[1..], home, f, listing)
    ensures Visits(work, f) <==> work[0].folder == f || Visits(work[1..], f)
    ensures work[0].folder == f ==> !Visits(work[1..], f)
  {
    var rest := work[1..];
    assert forall p :: p in rest ==> p in work;
    if i :| 0 <= i < |work| && work[i].folder == f {
      assert i > 0 ==> rest[i - 1] == work[i];
    }
    if i :| 0 <= i < |rest| && rest[i].folder == f {
      assert work[i + 1] == rest[i];
    }
  }

  lemma {:induction false} WorkKeepsRowsOk(cfg: Config, t: Tables, home: string -> FolderKey, work: seq<ParentWork>,
                                           f: string, listing: seq<Listed>)
    requires WorkOk(cfg, work, home, f, listing) && RowsOk(t, home, ParentKey(cfg, f), listing)
    ensures RowsOk(ApplyWork(t, cfg, work).tables, home, ParentKey(cfg, f), listing)
    decreases |work|
  {
    if work != [] {
      var p := work[0];
      assert p in work;
      RestOk(cfg, work, home, f, listing);
      ParentAtHome(t, cfg, p, home);
      ParentWithin(cfg, t, home, p, f, Ids(listing));
      if !ApplyParent(t, cfg, p).interrupted {
        WorkKeepsRowsOk(cfg, ApplyParent(t, cfg, p).tables, home, work[1..], f, listing);
      }
    }
  }

  /** This folder's turn, if it comes, is reached and honest. */
  ghost predicate TurnServed(work: seq<ParentWork>, f: string, listing: seq<Listed>) {
    forall i :: 0 <= i < |work| && work[i].folder == f ==> Reached(work, i) && CrawlsWhole(work[i], listing)
  }

  lemma {:induction false} RestServed(work: seq<ParentWork>, f: string, listing: seq<Listed>)
    requires TurnServed(work, f, listing) && work != []
    ensures TurnServed(work[1..], f, listing)
    ensures Visits(work[1..], f) ==> !Interrupts(work[0])
  {
    var rest := work[1..];
    forall i | 0 <= i < |rest| && rest[i].folder == f
      ensures Reached(rest, i) && CrawlsWhole(rest[i], listing) && !Interrupts(work[0])
    {
      assert work[i + 1] == rest[i];
      ReachedLater(work, i + 1);
    }
  }

  /** Over the whole work: the folder ends up to date if it is worked on, and untouched if not. */
  lemma {:induction false} WorkMakesUpToDate(cfg: Config, t: Tables, home: string -> FolderKey, work: seq<ParentWork>,
                                             f: string, listing: seq<Listed>)
    requires WorkOk(cfg, work, home, f, listing) && TurnServed(work, f, listing)
    requires RowsOk(t, home, ParentKey(cfg, f), listing) && DistinctIds(listing) &&
             OwnIds(listing, ParentKey(cfg, f), home)
    ensures var t' := ApplyWork(t, cfg, work).tables;
            if Visits(work, f) then UpToDate(t', ParentKey(cfg, f), listing) else SameFolder(t, t', ParentKey(cfg, f))
    decreases |work|
  {
    if work != [] {
      var p, rest, key := work[0], work[1..], ParentKey(cfg, f);
      var t1 := ApplyParent(t, cfg, p).tables;
      assert p in work;
      RestOk(cfg, work, home, f, listing);
      RestServed(work, f, listing);
      ParentStamps(t, cfg, p, f);
      ParentAtHome(t, cfg, p, home);
      ParentWithin(cfg, t, home, p, f, Ids(listing));
      if p.folder == f {
        TurnMakesUpToDate(cfg, t, home, p, listing);
      } else {
        ParentKeyInjective(cfg, f, p.folder);
        ParentFrames(t, cfg, p, home, key);
      }
      if !Interrupts(p) {
        WorkMakesUpToDate(cfg, t1, home, rest, f, listing);
        AfterRest(t, t1, ApplyWork(t1, cfg, rest).tables, key, listing, p.folder == f, Visits(rest, f));
      }
    }
  }

  lemma {:induction false} AfterRest(t: Tables, t1: Tables, t2: Tables, key: FolderKey, listing: seq<Listed>, now: bool,
                                     later: bool)
    requires !(now && later)
    requires if now then UpToDate(t1, key, listing) else SameFolder(t, t1, key)
    requires if later then UpToDate(t2, key, listing) else SameFolder(t1, t2, key)
    ensures if now || later then UpToDate(t2, key, listing) else SameFolder(t, t2, key)
  {
    if now {
      FrameUpToDate(t1, t2, key, listing);
    } else if !later {
      SameFolderChain(t, t1, t2, key);
    }
  }

  /** A run leaves the catalogue in order, however it fails and whether or not it has this folder active. */
  lemma {:induction false} RunKeepsCatalog(env: string, home: string -> FolderKey, f: string, w: World, r: Run,
                                           w': World)
    requires f in w.remote && RunStep(env, home, f, w, r, w')
    requires CatalogOk(env, home, w.tables, Listing(w.remote[f]), f)
    ensures CatalogOk(env, home, w'.tables, Listing(w.remote[f]), f)
  {
    WorkIsActive(env, w.tables, r, w'.tables);
    RunKeepsSegmentApart(w.tables, r.cfg, r.work, f);
    WorkKeepsRowsOk(r.cfg, w.tables, home, r.work, f, Listing(w.remote[f]));
  }

  /** A run that serves the folder makes it up to date if it is marked, and does not touch it otherwise. */
  lemma {:induction false} ServedFolder(env: string, home: string -> FolderKey, f: string, w: World, r: Run, w': World)
    requires FlatDirectory(f) && FolderOk(env, home, w, f) && RunStep(env, home, f, w, r, w') && Serves(w, r, f)
    requires CatalogOk(env, home, w.tables, Listing(w.remote[f]), f)
    ensures if Mark(f, f) in DirtyOf(r) then UpToDate(w'.tables, KeyOf(env, f), Listing(w.remote[f]))
            else SameFolder(w.tables, w'.tables, KeyOf(env, f))
  {
    var listing := Listing(w.remote[f]);
    VisitedExactly(r, f);
    forall i | 0 <= i < |r.work| && r.work[i].folder == f ensures CrawlsWhole(r.work[i], listing) {
      HonestCrawlsWhole(w, r, r.work[i]);
    }
    WorkMakesUpToDate(r.cfg, w.tables, home, r.work, f, listing);
  }

  /** Exactly when a run that has a flat folder active leaves it as a full crawl would: it was so already, it was never
      crawled, or a log scan finds a dirty record of it before three clean ones in a row. */
  lemma {:induction false} UpToDateAfterRunExactly(env: string, home: string -> FolderKey, f: string, w: World, r: Run,
                                                   w': World)
    requires FlatDirectory(f) && FolderOk(env, home, w, f) && RunStep(env, home, f, w, r, w') && Serves(w, r, f)
    requires CatalogOk(env, home, w.tables, Listing(w.remote[f]), f) && f in r.cfg.active
    ensures UpToDate(w'.tables, KeyOf(env, f), Listing(w.remote[f])) <==>
            || UpToDate(w.tables, KeyOf(env, f), Listing(w.remote[f]))
            || CrawledAt(w.tables, KeyOf(env, f)).None?
            || ScanFinds(r.cfg, r.db, Standard, r.std, f)
            || ScanFinds(r.cfg, r.db, Evolution, r.oce, f)
  {
    var key, listing := KeyOf(env, f), Listing(w.remote[f]);
    ServedFolder(env, home, f, w, r, w');
    FlatFolderIsDirtyExactly(env, w.tables, r, w'.tables, f);
    if Mark(f, f) !in DirtyOf(r) {
      SameFolderBack(w.tables, w'.tables, key);
      if UpToDate(w'.tables, key, listing) {
        FrameUpToDate(w'.tables, w.tables, key, listing);
      }
      if UpToDate(w.tables, key, listing) {
        FrameUpToDate(w.tables, w'.tables, key, listing);
      }
    }
  }

  lemma {:induction false} SameFolderBack(t: Tables, t': Tables, k: FolderKey)
    requires SameFolder(t, t', k)
    ensures SameFolder(t', t, k)
  {
  }

  // ---- Histories ------------------------------------------------------------------------------

  /** What happens between two worlds: the remote changes, or a run takes place. */
  datatype Event = RemoteChanged | DeltaRan(run: Run)

  ghost predicate Follows(env: string, home: string -> FolderKey, f: string, w: World, e: Event, w': World)
    requires f in w.remote
  {
    match e
    case RemoteChanged => RemoteStep(env, home, f, w, w')
    case DeltaRan(r) => RunStep(env, home, f, w, r, w')
  }

  /** Any sequence of remote changes and runs, each run under its own configuration and failing as it likes, from a
      catalogue that is in order and may hold anything else. */
  ghost predicate History(env: string, home: string -> FolderKey, f: string, ws: seq<World>, es: seq<Event>) {
    && FlatDirectory(f) && |ws| == |es| + 1
    && (forall i :: 0 <= i < |ws| ==> f in ws[i].remote)
    && FolderOk(env, home, ws[0], f) && CatalogOk(env, home, ws[0].tables, Listing(ws[0].remote[f]), f)
    && forall i :: 0 <= i < |es| ==> Follows(env, home, f, ws[i], es[i], ws[i + 1])
  }

  lemma {:induction false} HistoryStep(env: string, home: string -> FolderKey, f: string, ws: seq<World>,
                                       es: seq<Event>, n: nat)
    requires History(env, home, f, ws, es) && n < |es|
    ensures FlatDirectory(f) && f in ws[n].remote && Follows(env, home, f, ws[n], es[n], ws[n + 1])
  {
  }

  lemma {:induction false} StepKeepsCatalog(env: string, home: string -> FolderKey, f: string, w: World, e: Event,
                                            w': World)
    requires f in w.remote && Follows(env, home, f, w, e, w')
    requires FolderOk(env, home, w, f) && CatalogOk(env, home, w.tables, Listing(w.remote[f]), f)
    ensures FolderOk(env, home, w', f) && CatalogOk(env, home, w'.tables, Listing(w'.remote[f]), f)
  {
    if e.DeltaRan? {
      RunKeepsCatalog(env, home, f, w, e.run, w');
    }
  }

  lemma {:induction false} HistoryKeepsCatalog(env: string, home: string -> FolderKey, f: string, ws: seq<World>,
                                               es: seq<Event>, n: nat)
    requires History(env, home, f, ws, es) && n <= |es|
    ensures FolderOk(env, home, ws[n], f) && CatalogOk(env, home, ws[n].tables, Listing(ws[n].remote[f]), f)
  {
    if n > 0 {
      HistoryKeepsCatalog(env, home, f, ws, es, n - 1);
      HistoryStep(env, home, f, ws, es, n - 1);
      StepKeepsCatalog(env, home, f, ws[n - 1], es[n - 1], ws[n]);
    }
  }

  /** In any history, a run that has the folder active and serves it leaves it as a full crawl would exactly when it was
      so already, it was never crawled, or a log scan finds a dirty record of it before three clean ones in a row. */
  lemma {:induction false} HistoryUpToDateExactly(env: string, home: string -> FolderKey, f: string, ws: seq<World>,
                                                  es: seq<Event>, n: nat)
    requires History(env, home, f, ws, es) && n < |es| && es[n].DeltaRan?
    requires Serves(ws[n], es[n].run, f) && f in es[n].run.cfg.active
    ensures var r := es[n].run;
            UpToDate(ws[n + 1].tables, KeyOf(env, f), Listing(ws[n + 1].remote[f])) <==>
            || UpToDate(ws[n].tables, KeyOf(env, f), Listing(ws[n].remote[f]))
            || CrawledAt(ws[n].tables, KeyOf(env, f)).None?
            || ScanFinds(r.cfg, r.db, Standard, r.std, f)
            || ScanFinds(r.cfg, r.db, Evolution, r.oce, f)
  {
    HistoryKeepsCatalog(env, home, f, ws, es, n);
    HistoryStep(env, home, f, ws, es, n);
    UpToDateAfterRunExactly(env, home, f, ws[n], es[n].run, ws[n + 1]);
  }

  // ---- When the scan cannot miss --------------------------------------------------------------

  ghost predicate Dated(d: FileData, time: int) {
    d.lastUpdated.Some? ==> d.lastUpdated.value <= time
  }

  /** Everything the environment has stored is dated at most `time`, or not at all. */
  ghost predicate DatedBy(env: string, home: string -> FolderKey, t: Tables, time: int) {
    forall x :: x in t.files && home(x).env == Lower(env) ==> Dated(t.files[x].data, time)
  }

  /** Everything stored is dated at most `cutoff`, and what the folder misses once crawled is logged after `cutoff`. */
  ghost predicate Inv(env: string, home: string -> FolderKey, f: string, w: World, cutoff: int)
    requires f in w.remote
  {
    && FlatDirectory(f) && FolderOk(env, home, w, f) && CatalogOk(env, home, w.tables, Listing(w.remote[f]), f)
    && cutoff <= w.clock && DatedBy(env, home, w.tables, cutoff)
    && (CrawledAt(w.tables, KeyOf(env, f)).Some? ==>
          && AggregatesAgree(w.tables, KeyOf(env, f))
          && forall r :: r in w.remote[f] ==> r.logTime > cutoff || Holds(w.tables, KeyOf(env, f), r.listed))
  }

  /** Nothing a run lists, in whatever folder, is dated in the future. */
  ghost predicate ListsDated(work: seq<ParentWork>, clock: int) {
    forall p, l, x :: p in work && l in p.leaves && l.outcome.Crawled? && x in l.outcome.files ==> Dated(x.data, clock)
  }

  /** Each file of the folder has a row in the standard log with its last update, under a name that counts for the
      folder. */
  ghost predicate LogCovers(cfg: Config, w: World, f: string) {
    f in w.remote ==> forall r :: r in w.remote[f] ==> Logged(cfg, w.std, f, r.logTime)
  }

  ghost predicate Logged(cfg: Config, std: seq<LogRow>, f: string, time: int) {
    exists row ::
      row in std && row.maxUpdate == Some(time) && row.fileName.Some? && Attributed(cfg.active, row.fileName.value, f)
  }

  lemma {:induction false} RemoteStepKeeps(env: string, home: string -> FolderKey, f: string, w: World, w': World,
                                           cutoff: int)
    requires f in w.remote && Inv(env, home, f, w, cutoff) && RemoteStep(env, home, f, w, w')
    ensures Inv(env, home, f, w', cutoff)
  {
  }

  /** Every stored date is at most `cutoff`, so every record after `cutoff` is dirty. */
  lemma {:induction false} NewerIsDirty(cfg: Config, home: string -> FolderKey, t: Tables, cutoff: int, db: FileIndex,
                                        x: Record)
    requires AtHome(t, home) && TablesOk(t) && DatedBy(cfg.env, home, t, cutoff) && FileIndexOf(db, t, cfg) &&
             x.time > cutoff
    ensures Dirty(db, x)
  {
    var base := StripExtension(x.fileName);
    if base in db {
      var y :| y in t.files && InEnvironment(t, cfg, y) && StripExtension(t.files[y].data.name) == base &&
               t.files[y].data.lastUpdated == db[base];
      var k :| k in t.folders && k.env == Lower(cfg.env) && t.folders[k].id == t.files[y].folderId;
      assert t.folders[home(y)].id == t.folders[k].id;
      assert home(y) == k;
    }
  }

  /** So a record of the folder after `cutoff` is found, wherever the scan stops. */
  lemma {:induction false} NewerIsFound(cfg: Config, home: string -> FolderKey, t: Tables, cutoff: int, db: FileIndex,
                                        log: Log, rows: seq<LogRow>, x: Record)
    requires AtHome(t, home) && TablesOk(t) && DatedBy(cfg.env, home, t, cutoff) && FileIndexOf(db, t, cfg)
    requires x in Records(log, cfg.active, rows) && x.time > cutoff && Flat(x.folder)
    ensures ScanFinds(cfg, db, log, rows, x.folder)
  {
    var all := Records(log, cfg.active, rows);
    SortKeepsMembers(all, x);
    SortNewestFirstSorts(all);
    forall y | y in SortNewestFirst(all) && y.time > cutoff ensures Dirty(db, y) {
      NewerIsDirty(cfg, home, t, cutoff, db, y);
    }
    NewerThanCutoffIsMarked(db, SortNewestFirst(all), cutoff, x);
    assert MarkOf(x) == Mark(x.folder, ResolveExactFolder(x.folder, x.fileName)) == Mark(x.folder, x.folder);
    ScanFindsExactly(cfg, db, log, rows, x.folder);
  }

  /** Rows that are all listed, and hold every listed record, are the listing. */
  lemma {:induction false} HoldingAllIsListing(t: Tables, key: FolderKey, listing: seq<Listed>)
    requires DistinctIds(listing) && Stored(t, key).Keys <= Ids(listing)
    requires forall x :: x in listing ==> Holds(t, key, x)
    ensures Stored(t, key) == Rows(listing)
  {
    RowsLookup(listing);
    forall x | x in Ids(listing) ensures x in Stored(t, key) && Stored(t, key)[x] == Rows(listing)[x] {
      var l :| l in listing && l.fileId == x;
      assert Holds(t, key, l);
    }
  }

  /** A crawled folder with no file logged after `cutoff` is up to date, and one with such a file is not. */
  lemma {:induction false} CurrentUnlessChanged(env: string, home: string -> FolderKey, f: string, w: World,
                                                cutoff: int)
    requires f in w.remote && Inv(env, home, f, w, cutoff) && CrawledAt(w.tables, KeyOf(env, f)).Some?
    ensures UpToDate(w.tables, KeyOf(env, f), Listing(w.remote[f])) <==>
            forall r :: r in w.remote[f] ==> r.logTime <= cutoff
  {
    var key, listing := KeyOf(env, f), Listing(w.remote[f]);
    if forall r :: r in w.remote[f] ==> r.logTime <= cutoff {
      forall x | x in listing ensures Holds(w.tables, key, x) {
        var i :| 0 <= i < |listing| && listing[i] == x;
        assert w.remote[f][i] in w.remote[f];
      }
      HoldingAllIsListing(w.tables, key, listing);
    }
    if UpToDate(w.tables, key, listing) {
      forall r | r in w.remote[f] ensures r.logTime <= cutoff {
        UpToDateHoldsAll(w.tables, key, w.remote[f], r);
        StoredIsDated(env, home, w.tables, f, cutoff, r.listed);
      }
    }
  }

  lemma {:induction false} StoredIsDated(env: string, home: string -> FolderKey, t: Tables, f: string, cutoff: int,
                                         x: Listed)
    requires TablesOk(t) && AtHome(t, home) && DatedBy(env, home, t, cutoff) && Holds(t, KeyOf(env, f), x)
    ensures Dated(x.data, cutoff)
  {
    var key := KeyOf(env, f);
    assert t.folders[home(x.fileId)].id == t.folders[key].id;
    assert home(x.fileId) == key;
  }

  lemma {:induction false} UpToDateHoldsAll(t: Tables, key: FolderKey, files: seq<RemoteFile>, r: RemoteFile)
    requires Stored(t, key) == Rows(Listing(files)) && DistinctIds(Listing(files)) && r in files
    ensures Holds(t, key, r.listed)
  {
    var i :| 0 <= i < |files| && files[i] == r;
    assert Listing(files)[i] == r.listed;
    RowsLookup(Listing(files));
  }

  lemma {:induction false} UpsertDated(env: string, home: string -> FolderKey, t: Tables, id: nat, files: seq<Listed>,
                                       time: int)
    requires DatedBy(env, home, t, time) && DistinctIds(files) && forall x :: x in files ==> Dated(x.data, time)
    ensures DatedBy(env, home, UpsertLeaf(t, id, files).value, time)
  {
    RowsLookup(files);
    var t' := UpsertLeaf(t, id, files).value;
    forall y | y in t'.files && home(y).env == Lower(env) ensures Dated(t'.files[y].data, time) {
      if y in Rows(files) {
        var x :| x in files && x.fileId == y;
      }
    }
  }

  lemma {:induction false} LeavesDated(env: string, home: string -> FolderKey, t: Tables, id: nat,
                                       leaves: seq<LeafWork>, time: int)
    requires DatedBy(env, home, t, time)
    requires forall l, x :: l in leaves && l.outcome.Crawled? && x in l.outcome.files ==> Dated(x.data, time)
    ensures DatedBy(env, home, ApplyLeaves(t, id, leaves).tables, time)
    decreases |leaves|
  {
    if leaves != [] {
      var l := leaves[0];
      assert l in leaves && forall m :: m in leaves[1..] ==> m in leaves;
      if l.outcome.Crawled? && DistinctIds(l.outcome.files) {
        UpsertDated(env, home, t, id, l.outcome.files, time);
      }
      LeavesDated(env, home, AfterLeaf(t, id, l), id, leaves[1..], time);
    }
  }

  lemma {:induction false} WorkDated(env: string, home: string -> FolderKey, t: Tables, cfg: Config,
                                     work: seq<ParentWork>, time: int)
    requires DatedBy(env, home, t, time) && Assigned(cfg, work) && ListsDated(work, time)
    ensures DatedBy(env, home, ApplyWork(t, cfg, work).tables, time)
    decreases |work|
  {
    if work != [] {
      var p := work[0];
      assert p in work && forall q :: q in work[1..] ==> q in work;
      if Starts(p) {
        var key := ParentKey(cfg, p.folder);
        var t1 := EnsureFolder(t, key, cfg.domainOf[p.folder]);
        LeavesDated(env, home, t1, t1.folders[key].id, p.leaves, time);
      }
      assert DatedBy(env, home, ApplyParent(t, cfg, p).tables, time);
      if !ApplyParent(t, cfg, p).interrupted {
        WorkDated(env, home, ApplyParent(t, cfg, p).tables, cfg, work[1..], time);
      }
    }
  }

  /** A folder never crawled, or with a file logged after the cutoff, is marked wherever the scan stops. */
  lemma {:induction false} ChangedFolderIsDirty(env: string, home: string -> FolderKey, f: string, w: World,
                                                cutoff: int, r: Run, w': World)
    requires f in w.remote && Inv(env, home, f, w, cutoff) && RunStep(env, home, f, w, r, w')
    requires f in r.cfg.active && LogCovers(r.cfg, w, f)
    requires CrawledAt(w.tables, KeyOf(env, f)).None? || exists x :: x in w.remote[f] && x.logTime > cutoff
    ensures Mark(f, f) in DirtyOf(r)
  {
    FlatFolderIsDirtyExactly(env, w.tables, r, w'.tables, f);
    if x :| x in w.remote[f] && x.logTime > cutoff {
      assert Logged(r.cfg, w.std, f, x.logTime);
      var row :| row in w.std && row.maxUpdate == Some(x.logTime) && row.fileName.Some? &&
                 Attributed(r.cfg.active, row.fileName.value, f);
      AttributedExactly(r.cfg.active, row, f);
      var rec := StandardRecord(r.cfg.active, row).value;
      assert RecordOf(Standard, r.cfg.active, row) == Some(rec);
      RecordsExact(Standard, r.cfg.active, w.std, rec);
      NewerIsFound(r.cfg, home, w.tables, cutoff, r.db, Standard, w.std, rec);
    }
  }

  /** A run serves the folder, lists nothing from the future, and finds each file of the folder in the log. */
  ghost predicate Careful(w: World, r: Run, f: string) {
    f in r.cfg.active && Serves(w, r, f) && ListsDated(r.work, w.clock) && LogCovers(r.cfg, w, f)
  }

  /** After such a run the folder is up to date, and the clock is the new cutoff. */
  lemma {:induction false} RunStepEstablishes(env: string, home: string -> FolderKey, f: string, w: World, cutoff: int,
                                              r: Run, w': World)
    requires f in w.remote && Inv(env, home, f, w, cutoff) && RunStep(env, home, f, w, r, w') && Careful(w, r, f)
    ensures Inv(env, home, f, w', w.clock)
    ensures UpToDate(w'.tables, KeyOf(env, f), Listing(w.remote[f]))
  {
    var key, listing := KeyOf(env, f), Listing(w.remote[f]);
    RunKeepsCatalog(env, home, f, w, r, w');
    ServedFolder(env, home, f, w, r, w');
    WorkDated(env, home, w.tables, r.cfg, r.work, w.clock);
    if Mark(f, f) !in DirtyOf(r) {
      if CrawledAt(w.tables, key).None? || exists x :: x in w.remote[f] && x.logTime > cutoff {
        ChangedFolderIsDirty(env, home, f, w, cutoff, r, w');
      }
      CurrentUnlessChanged(env, home, f, w, cutoff);
      FrameUpToDate(w.tables, w'.tables, key, listing);
    }
    forall x | x in w.remote[f] ensures Holds(w'.tables, key, x.listed) {
      UpToDateHoldsAll(w'.tables, key, w.remote[f], x);
    }
  }

  lemma {:induction false} HistoryInv(env: string, home: string -> FolderKey, f: string, ws: seq<World>, es: seq<Event>,
                                      cutoff: int, n: nat)
    requires History(env, home, f, ws, es) && Inv(env, home, f, ws[0], cutoff) && n <= |es|
    requires forall i :: 0 <= i < n && es[i].DeltaRan? ==> Careful(ws[i], es[i].run, f)
    ensures exists c :: Inv(env, home, f, ws[n], c)
  {
    if n > 0 {
      HistoryInv(env, home, f, ws, es, cutoff, n - 1);
      var c :| Inv(env, home, f, ws[n - 1], c);
      HistoryStep(env, home, f, ws, es, n - 1);
      if es[n - 1].RemoteChanged? {
        RemoteStepKeeps(env, home, f, ws[n - 1], ws[n], c);
      } else {
        RunStepEstablishes(env, home, f, ws[n - 1], c, es[n - 1].run, ws[n]);
      }
    }
  }

  lemma {:induction false} RewritingOwnRows(t: Tables, id: nat, listing: seq<Listed>)
    requires FilesOf(t.files, id) == Rows(listing)
    ensures WithoutFolder(t.files, id) + Homed(Rows(listing), id) == t.files
    ensures Rows(listing).Keys !! WithoutFolder(t.files, id).Keys
  {
    forall x | x in t.files && t.files[x].folderId == id
      ensures x in Homed(Rows(listing), id) && Homed(Rows(listing), id)[x] == t.files[x]
    {
      assert x in FilesOf(t.files, id) && FilesOf(t.files, id)[x] == t.files[x].data;
    }
    forall x | x in Rows(listing) ensures x in t.files && t.files[x].folderId == id {
      assert x in FilesOf(t.files, id);
    }
  }

  /** Full-crawling an up-to-date folder is accepted and only refreshes its crawl time. */
  lemma {:induction false} UpToDateNeedsNoCrawl(t: Tables, key: FolderKey, listing: seq<Listed>, domain: string,
                                                now: int)
    requires UpToDate(t, key, listing) && DistinctIds(listing)
    ensures SaveFolder(t, key, domain, CompileFolderMetadata(listing), listing, now)
            == Some(t.(folders := t.folders[key := t.folders[key].(crawledAt := Some(now))]))
  {
    var id := t.folders[key].id;
    RowsLookup(listing);
    assert FolderAfterCrawl(t, key, domain, CompileFolderMetadata(listing), now) ==
           t.folders[key].(crawledAt := Some(now)) by {
      CompiledMatchesRows(listing, Original);
      CompiledMatchesRows(listing, Compressed);
    }
    RewritingOwnRows(t, id, listing);
  }

  /** Main theorem. Start from any catalogue, take any history of remote additions and updates and of runs, each under
      its own configuration and with any failures in other folders. If every run serves this flat folder and its files
      are in the log, then after each run a full crawl of the folder would be accepted and would change nothing but its
      crawl time. */
  lemma {:induction false} DeltaRefinesFullCrawl(env: string, home: string -> FolderKey, f: string, ws: seq<World>,
                                                 es: seq<Event>, cutoff: int, n: nat, rootFiles: map<string, Listed>,
                                                 domain: string, now: int)
    requires History(env, home, f, ws, es) && Inv(env, home, f, ws[0], cutoff) && n < |es| && es[n].DeltaRan?
    requires forall i :: 0 <= i <= n && es[i].DeltaRan? ==> Careful(ws[i], es[i].run, f)
    ensures
      var t, key, crawl := ws[n + 1].tables, KeyOf(env, f), CrawlFolder(ws[n + 1].remote, rootFiles, f);
      && crawl.Some? && key in t.folders
      && SaveFolder(t, key, domain, CompileFolderMetadata(crawl.value), crawl.value, now)
         == Some(t.(folders := t.folders[key := t.folders[key].(crawledAt := Some(now))]))
  {
    HistoryInv(env, home, f, ws, es, cutoff, n);
    var c :| Inv(env, home, f, ws[n], c);
    HistoryStep(env, home, f, ws, es, n);
    RunStepEstablishes(env, home, f, ws[n], c, es[n].run, ws[n + 1]);
    UpToDateNeedsNoCrawl(ws[n + 1].tables, KeyOf(env, f), Listing(ws[n + 1].remote[f]), domain, now);
  }

  // ---- When the log counts a folder's files for another ---------------------------------------

  /** Some log row newer than `cutoff` counts for the folder. */
  ghost predicate NewlyAttributed(cfg: Config, w: World, f: string, cutoff: int) {
    || (exists row :: row in w.std && row.fileName.Some? && row.maxUpdate.Some? && row.maxUpdate.value > cutoff &&
                      Attributed(cfg.active, row.fileName.value, f))
    || (exists row :: row in w.oce && row.fileName.Some? && row.folderName == Some(f) && row.maxUpdate.Some? &&
                      row.maxUpdate.value > cutoff)
  }

  /** What counts for the folder in a log up to the cutoff are its own files, at their last update. */
  ghost predicate OwnRecords(cfg: Config, w: World, log: Log, rows: seq<LogRow>, f: string, cutoff: int)
    requires f in w.remote
  {
    forall x :: x in Records(log, cfg.active, rows) && x.folder == f && x.time <= cutoff ==>
      exists r ::
        r in w.remote[f] && StripExtension(r.listed.data.name) == StripExtension(x.fileName) && r.logTime == x.time
  }

  /** No two file rows of the environment share a base name. */
  ghost predicate BaseNamesApart(t: Tables, cfg: Config) {
    forall x, y ::
      x in t.files && y in t.files && InEnvironment(t, cfg, x) && InEnvironment(t, cfg, y) ==>
        StripExtension(t.files[x].data.name) == StripExtension(t.files[y].data.name) ==> x == y
  }

  lemma {:induction false} NewRecordExactly(cfg: Config, w: World, f: string, cutoff: int)
    requires f in cfg.active
    ensures NewlyAttributed(cfg, w, f, cutoff) <==>
            || (exists x :: x in Records(Standard, cfg.active, w.std) && x.folder == f && x.time > cutoff)
            || (exists x :: x in Records(Evolution, cfg.active, w.oce) && x.folder == f && x.time > cutoff)
  {
    StandardRecordExactly(cfg, w.std, f, cutoff);
    EvolutionRecordExactly(cfg, w.oce, f, cutoff);
  }

  lemma {:induction false} StandardRecordExactly(cfg: Config, rows: seq<LogRow>, f: string, cutoff: int)
    ensures (exists x :: x in Records(Standard, cfg.active, rows) && x.folder == f && x.time > cutoff) <==>
            exists row :: row in rows && row.fileName.Some? && row.maxUpdate.Some? && row.maxUpdate.value > cutoff &&
                          Attributed(cfg.active, row.fileName.value, f)
  {
    if x :| x in Records(Standard, cfg.active, rows) && x.folder == f && x.time > cutoff {
      RecordsExact(Standard, cfg.active, rows, x);
      var row :| row in rows && RecordOf(Standard, cfg.active, row) == Some(x);
      AttributedExactly(cfg.active, row, f);
    }
    if row :| row in rows && row.fileName.Some? && row.maxUpdate.Some? && row.maxUpdate.value > cutoff &&
              Attributed(cfg.active, row.fileName.value, f)
    {
      AttributedExactly(cfg.active, row, f);
      var x := StandardRecord(cfg.active, row).value;
      assert RecordOf(Standard, cfg.active, row) == Some(x);
      RecordsExact(Standard, cfg.active, rows, x);
    }
  }

  lemma {:induction false} EvolutionRecordExactly(cfg: Config, rows: seq<LogRow>, f: string, cutoff: int)
    requires f in cfg.active
    ensures (exists x :: x in Records(Evolution, cfg.active, rows) && x.folder == f && x.time > cutoff) <==>
            exists row :: row in rows && row.fileName.Some? && row.folderName == Some(f) && row.maxUpdate.Some? &&
                          row.maxUpdate.value > cutoff
  {
    if x :| x in Records(Evolution, cfg.active, rows) && x.folder == f && x.time > cutoff {
      RecordsExact(Evolution, cfg.active, rows, x);
      var row :| row in rows && RecordOf(Evolution, cfg.active, row) == Some(x);
    }
    if row :| row in rows && row.fileName.Some? && row.folderName == Some(f) && row.maxUpdate.Some? &&
              row.maxUpdate.value > cutoff
    {
      var x := EvolutionRecord(cfg.active, row).value;
      assert RecordOf(Evolution, cfg.active, row) == Some(x);
      RecordsExact(Evolution, cfg.active, rows, x);
    }
  }

  /** Where base names are apart, the index has each stored file's own date. */
  lemma {:induction false} HeldIsIndexed(t: Tables, cfg: Config, db: FileIndex, f: string, x: Listed)
    requires FileIndexOf(db, t, cfg) && BaseNamesApart(t, cfg) && Holds(t, ParentKey(cfg, f), x)
    ensures StripExtension(x.data.name) in db && db[StripExtension(x.data.name)] == x.data.lastUpdated
  {
    var key, base := ParentKey(cfg, f), StripExtension(x.data.name);
    assert t.files[x.fileId].data == x.data && t.files[x.fileId].folderId == t.folders[key].id;
    assert InEnvironment(t, cfg, x.fileId);
    assert base in db;
    var y :| y in t.files && InEnvironment(t, cfg, y) && StripExtension(t.files[y].data.name) == base &&
             t.files[y].data.lastUpdated == db[base];
    assert y == x.fileId;
  }

  /** A record of the folder up to the cutoff is clean: the catalogue has that file, and no other of its base name. */
  lemma {:induction false} OldOwnRecordIsClean(env: string, home: string -> FolderKey, f: string, w: World, cutoff: int,
                                               cfg: Config, db: FileIndex, x: Record, r: RemoteFile)
    requires f in w.remote && Inv(env, home, f, w, cutoff) && CrawledAt(w.tables, KeyOf(env, f)).Some? && cfg.env == env
    requires FileIndexOf(db, w.tables, cfg) && BaseNamesApart(w.tables, cfg)
    requires r in w.remote[f] && StripExtension(r.listed.data.name) == StripExtension(x.fileName) &&
             r.logTime == x.time <= cutoff
    ensures !Dirty(db, x)
  {
    HeldIsIndexed(w.tables, cfg, db, f, r.listed);
  }

  lemma {:induction false} FindsNewExactly(env: string, home: string -> FolderKey, f: string, w: World, cutoff: int,
                                           r: Run, log: Log, rows: seq<LogRow>)
    requires f in w.remote && Inv(env, home, f, w, cutoff) && CrawledAt(w.tables, KeyOf(env, f)).Some? &&
             r.cfg.env == env
    requires FileIndexOf(r.db, w.tables, r.cfg) && BaseNamesApart(w.tables, r.cfg) &&
             OwnRecords(r.cfg, w, log, rows, f, cutoff)
    ensures ScanFinds(r.cfg, r.db, log, rows, f) <==>
            exists x :: x in Records(log, r.cfg.active, rows) && x.folder == f && x.time > cutoff
  {
    if x :| x in Records(log, r.cfg.active, rows) && x.folder == f && x.time > cutoff {
      NewerIsFound(r.cfg, home, w.tables, cutoff, r.db, log, rows, x);
    }
    if ScanFinds(r.cfg, r.db, log, rows, f) {
      var records := SortNewestFirst(Records(log, r.cfg.active, rows));
      var i :| 0 <= i < |records| && records[i].folder == f && Dirty(r.db, records[i]) &&
               !TripleBefore(r.db, records, i);
      var x := records[i];
      SortKeepsMembers(Records(log, r.cfg.active, rows), x);
      if x.time <= cutoff {
        var file :| file in w.remote[f] && StripExtension(file.listed.data.name) == StripExtension(x.fileName) &&
                    file.logTime == x.time;
        OldOwnRecordIsClean(env, home, f, w, cutoff, r.cfg, r.db, x, file);
      }
    }
  }

  /** End to end: a crawled flat folder is current after a run that serves it exactly when none of its files changed
      since the cutoff, or some newer log row counts for it: its name occurs in the row's file name and no earlier
      active folder's does. */
  lemma {:induction false} CurrentExactlyWhenAttributed(env: string, home: string -> FolderKey, f: string, w: World,
                                                        cutoff: int, r: Run, w': World)
    requires f in w.remote && Inv(env, home, f, w, cutoff) && CrawledAt(w.tables, KeyOf(env, f)).Some?
    requires RunStep(env, home, f, w, r, w') && Serves(w, r, f) && f in r.cfg.active
    requires OwnRecords(r.cfg, w, Standard, w.std, f, cutoff) && OwnRecords(r.cfg, w, Evolution, w.oce, f, cutoff) &&
             BaseNamesApart(w.tables, r.cfg)
    ensures UpToDate(w'.tables, KeyOf(env, f), Listing(w.remote[f])) <==>
            (forall x :: x in w.remote[f] ==> x.logTime <= cutoff) || NewlyAttributed(r.cfg, w, f, cutoff)
  {
    UpToDateAfterRunExactly(env, home, f, w, r, w');
    CurrentUnlessChanged(env, home, f, w, cutoff);
    NewRecordExactly(r.cfg, w, f, cutoff);
    FindsNewExactly(env, home, f, w, cutoff, r, Standard, w.std);
    FindsNewExactly(env, home, f, w, cutoff, r, Evolution, w.oce);
  }

  // ---- The run of the program -----------------------------------------------------------------

  /** Nothing is interrupted, crawls list each file under its own folder and nothing from the future, and the crawl of
      this folder takes effect and lists what is there. */
  ghost predicate Obliging(env: string, home: string -> FolderKey, f: string, w: World, cfg: Config, e: Environment)
    requires f in w.remote
  {
    && e.init(f) == Ensured(Returns) && e.checkpoint(f).Saved?
    && e.leaf(f, f) == LeafOutcome.Crawled(Listing(w.remote[f]), Returns)
    && forall g, leaf :: g in cfg.active ==>
         && !e.init(g).StepInterrupted? && e.init(g) != Ensured(Interrupted)
         && !e.checkpoint(g).CheckpointInterrupted? &&
            (e.checkpoint(g).Saved? ==> e.checkpoint(g).ending != Interrupted)
         && !e.leaf(g, leaf).LeafInterrupted?
         && (e.leaf(g, leaf).Crawled? ==>
               && e.leaf(g, leaf).ending != Interrupted && OwnIds(e.leaf(g, leaf).files, KeyOf(env, g), home)
               && forall x :: x in e.leaf(g, leaf).files ==> Dated(x.data, w.clock))
  }

  /** What `RunDelta` does to the catalogue in such an environment is a run the theorems speak of. */
  lemma {:induction false} ProgramRunIsRunStep(env: string, home: string -> FolderKey, f: string, w: World, cfg: Config,
                                               e: Environment, t': Tables) returns (r: Run)
    requires ConfigOk(cfg) && cfg.env == env && f in w.remote && FlatDirectory(f) &&
             OwnIds(Listing(w.remote[f]), KeyOf(env, f), home)
    requires Obliging(env, home, f, w, cfg, e) && DeltaStep(w.tables, cfg, w.std, w.oce, e, t')
    ensures r.cfg == cfg && RunStep(env, home, f, w, r, w.(tables := t'))
    ensures Serves(w, r, f) && ListsDated(r.work, w.clock) && Plays(r.work, e)
  {
    var db: FileIndex, crawled: CrawlIndex, work: seq<ParentWork> :|
      DeltaRun(w.tables, cfg, w.std, w.oce, db, crawled, work, t') && Plays(work, e);
    r := Run(cfg, w.std, w.oce, db, crawled, work);
    WorkIsActive(env, w.tables, r, t');
    forall p | p in work
      ensures !Interrupts(p) && ListsOwnFiles(cfg, p, home)
      ensures p.folder == f ==> Honest(w.remote, p) && ListsWithin(p, f, Ids(Listing(w.remote[f])))
      ensures forall l, x :: l in p.leaves && l.outcome.Crawled? && x in l.outcome.files ==> Dated(x.data, w.clock)
    {
      ParentObliged(env, home, f, w, e, r, p);
    }
  }

  /** ... so it makes a marked folder up to date and leaves an unmarked one untouched. */
  lemma {:induction false} ProgramRunServes(env: string, home: string -> FolderKey, f: string, w: World, cfg: Config,
                                            e: Environment, t': Tables) returns (r: Run)
    requires ConfigOk(cfg) && cfg.env == env && FlatDirectory(f) && FolderOk(env, home, w, f)
    requires CatalogOk(env, home, w.tables, Listing(w.remote[f]), f)
    requires Obliging(env, home, f, w, cfg, e) && DeltaStep(w.tables, cfg, w.std, w.oce, e, t')
    ensures r.cfg == cfg && r.std == w.std && r.oce == w.oce && Runs(env, w.tables, r, t') && Plays(r.work, e)
    ensures CatalogOk(env, home, t', Listing(w.remote[f]), f)
    ensures if Mark(f, f) in DirtyOf(r) then UpToDate(t', KeyOf(env, f), Listing(w.remote[f]))
            else SameFolder(w.tables, t', KeyOf(env, f))
  {
    r := ProgramRunIsRunStep(env, home, f, w, cfg, e, t');
    ServedFolder(env, home, f, w, r, w.(tables := t'));
    RunKeepsCatalog(env, home, f, w, r, w.(tables := t'));
  }

  lemma {:induction false} ParentObliged(env: string, home: string -> FolderKey, f: string, w: World, e: Environment,
                                         r: Run, p: ParentWork)
    requires f in w.remote && FlatDirectory(f) && Obliging(env, home, f, w, r.cfg, e) && r.cfg.env == env
    requires Enumerates(r.work, DirtyOf(r)) && Plays(r.work, e) && p in r.work && p.folder in r.cfg.active
    ensures !Interrupts(p) && ListsOwnFiles(r.cfg, p, home)
    ensures p.folder == f ==> Honest(w.remote, p) && ListsWithin(p, f, Ids(Listing(w.remote[f])))
    ensures forall l, x :: l in p.leaves && l.outcome.Crawled? && x in l.outcome.files ==> Dated(x.data, w.clock)
  {
    forall l | l in p.leaves
      ensures !LeafInterrupts(l) && l.outcome == e.leaf(p.folder, l.leaf)
      ensures p.folder == f ==> l.leaf == f
    {
      if p.folder == f {
        MarksAreFlat(r, Mark(f, l.leaf));
      }
    }
  }
}
