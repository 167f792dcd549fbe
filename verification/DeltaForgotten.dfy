/** Three runs of the program that leave a folder behind: its crawl fails, or a run leaves it out, while newer files of
    another folder are stored. */
module DeltaForgotten {
  import opened Prelude
  import opened Text
  import opened Catalog
  import opened DeltaScan
  import opened DeltaRefresh
  import opened DeltaRecovery
  import opened DeltaHistory
  import opened DeltaLimits

  /** Two folders: a has one file, in an old and a new version, b has these files; and a log that tells of the new
      version. */
  datatype Scene = Scene(env: string, domain: string, a: string, b: string, before: Listed, after: Listed,
                         files: seq<Listed>, log: seq<LogRow>, clock: int)

  function Over(s: Scene, active: seq<string>): Config {
    Config(s.env, active, map[s.a := s.domain, s.b := s.domain])
  }

  function Both(s: Scene): seq<string> {
    [s.a, s.b]
  }

  function KeyA(s: Scene): FolderKey { KeyOf(s.env, s.a) }

  function KeyB(s: Scene): FolderKey { KeyOf(s.env, s.b) }

  ghost function Home(s: Scene): string -> FolderKey {
    id => if id == s.before.fileId then KeyA(s) else KeyB(s)
  }

  ghost predicate DatedFile(x: Listed, clock: int) {
    x.data.lastUpdated.Some? && x.data.lastUpdated.value <= clock
  }

  ghost predicate FoldersOk(s: Scene) {
    && FlatDirectory(s.a) && FlatDirectory(s.b) && s.a != s.b
    && s.before.fileId == s.after.fileId && s.before.data != s.after.data && s.before.fileId !in Ids(s.files)
    && DistinctIds(s.files) && DatedFile(s.before, s.clock) && DatedFile(s.after, s.clock)
    && (forall x :: x in s.files ==> DatedFile(x, s.clock))
  }

  ghost predicate NamesApart(files: seq<Listed>) {
    forall x, y :: x in files && y in files && StripExtension(x.data.name) == StripExtension(y.data.name) ==> x == y
  }

  /** The record is of one of the files, at its date or an earlier one. */
  ghost predicate Reports(files: seq<Listed>, x: Record) {
    exists y :: y in files && StripExtension(y.data.name) == StripExtension(x.fileName) &&
                y.data.lastUpdated.Some? && x.time <= y.data.lastUpdated.value
  }

  /** The update of a's file is in the log. */
  ghost predicate UpdateLogged(s: Scene) {
    exists x :: x in Records(Standard, Both(s), s.log) && x.folder == s.a && OutdatedBy(s.before, x)
  }

  predicate OutdatedBy(listed: Listed, x: Record) {
    && StripExtension(x.fileName) == StripExtension(listed.data.name)
    && listed.data.lastUpdated.Some? && x.time > listed.data.lastUpdated.value
  }

  /** Base names are apart, a's update is logged, and the three newest records are of b's files. */
  ghost predicate LogOk(s: Scene) {
    && NamesApart([s.before] + s.files) && UpdateLogged(s)
    && var records := SortNewestFirst(Records(Standard, Both(s), s.log));
       |records| >= 3 && forall i :: 0 <= i < 3 ==> Reports(s.files, records[i])
  }

  ghost predicate SceneOk(s: Scene) {
    FoldersOk(s) && LogOk(s)
  }

  /** A site on which a's folder answers as given and b's lists these files. */
  function Site(s: Scene, ofA: LeafOutcome, ofB: seq<Listed>): Environment {
    Environment(_ => Ensured(Returns),
                (g, leaf) => if g == s.b then LeafOutcome.Crawled(if leaf == s.b then ofB else [], Returns)
                             else if leaf == s.a then ofA else LeafFailed,
                _ => Saved(1, Returns))
  }

  function ListsA(x: Listed): LeafOutcome {
    LeafOutcome.Crawled([x], Returns)
  }

  function RemoteFiles(files: seq<Listed>): (r: seq<RemoteFile>)
    ensures |r| == |files|
  {
    seq(|files|, i requires 0 <= i < |files| => RemoteFile(files[i], files[i].data.lastUpdated.GetOr(0)))
  }

  ghost function WorldOf(s: Scene, t: Tables, a: Listed, b: seq<Listed>, std: seq<LogRow>): World {
    World(t, map[s.a := RemoteFiles([a]), s.b := RemoteFiles(b)], std, [], s.clock)
  }

  lemma {:induction false} KeysApart(s: Scene)
    requires FoldersOk(s)
    ensures KeyA(s) != KeyB(s)
  {
    ParentKeyInjective(Over(s, []), s.a, s.b);
  }

  lemma {:induction false} ListingOf(files: seq<Listed>)
    ensures Listing(RemoteFiles(files)) == files
  {
  }

  lemma {:induction false} FolderOfA(s: Scene, t: Tables, a: Listed, b: seq<Listed>, std: seq<LogRow>)
    requires FoldersOk(s) && a in {s.before, s.after}
    ensures var w := WorldOf(s, t, a, b, std);
            FolderOk(s.env, Home(s), w, s.a) && Listing(w.remote[s.a]) == [a] && OwnIds([a], KeyA(s), Home(s))
  {
    OneFile(a);
    ListingOf([a]);
  }

  lemma {:induction false} FolderOfB(s: Scene, t: Tables, a: Listed, b: seq<Listed>, std: seq<LogRow>)
    requires FoldersOk(s) && (b == [] || b == s.files)
    ensures var w := WorldOf(s, t, a, b, std);
            FolderOk(s.env, Home(s), w, s.b) && Listing(w.remote[s.b]) == b && OwnIds(b, KeyB(s), Home(s))
  {
    ListingOf(b);
    assert DistinctIds([]);
    forall x | x in RemoteFiles(b) ensures x.listed in b && x.logTime == x.listed.data.lastUpdated.GetOr(0) {
    }
  }

  lemma {:induction false} FolderOf(s: Scene, t: Tables, a: Listed, b: seq<Listed>, std: seq<LogRow>, f: string,
                                    listing: seq<Listed>)
    requires FoldersOk(s) && a in {s.before, s.after} && (b == [] || b == s.files)
    requires f in {s.a, s.b} && listing == if f == s.a then [a] else b
    ensures var w := WorldOf(s, t, a, b, std);
            FlatDirectory(f) && FolderOk(s.env, Home(s), w, f) && Listing(w.remote[f]) == listing
  {
    if f == s.a {
      FolderOfA(s, t, a, b, std);
    } else {
      FolderOfB(s, t, a, b, std);
    }
  }

  lemma {:induction false} SiteObliges(s: Scene, w: World, cfg: Config, ofA: LeafOutcome, ofB: seq<Listed>, f: string)
    requires FoldersOk(s) && f in w.remote && w.clock == s.clock && forall g :: g in cfg.active ==> g in {s.a, s.b}
    requires ofA in {LeafFailed, ListsA(s.before), ListsA(s.after)} && (ofB == [] || ofB == s.files)
    requires (f == s.a && ofA == LeafOutcome.Crawled(Listing(w.remote[f]), Returns)) ||
             (f == s.b && ofB == Listing(w.remote[f]))
    ensures Obliging(s.env, Home(s), f, w, cfg, Site(s, ofA, ofB))
  {
    var e := Site(s, ofA, ofB);
    OneFile(s.before);
    OneFile(s.after);
    forall g, leaf | g in cfg.active && e.leaf(g, leaf).Crawled?
      ensures OwnIds(e.leaf(g, leaf).files, KeyOf(s.env, g), Home(s))
      ensures forall x :: x in e.leaf(g, leaf).files ==> Dated(x.data, w.clock)
    {
      assert e.leaf(g, leaf).files in {[], [s.before], [s.after], s.files};
    }
  }

  lemma {:induction false} OfTheScene(s: Scene, active: seq<string>)
    requires active in {Both(s), [s.a], [s.b]}
    ensures forall g :: g in active ==> g in {s.a, s.b}
    ensures FoldersOk(s) ==> ConfigOk(Over(s, active))
  {
  }

  /** The program's run in this scene: what becomes of one of the two folders, if its own crawls succeed. */
  lemma {:induction false} SceneRun(s: Scene, t: Tables, a: Listed, b: seq<Listed>, std: seq<LogRow>, cfg: Config,
                                    ofA: LeafOutcome, f: string, listing: seq<Listed>, t': Tables) returns (r: Run)
    requires FoldersOk(s) && a in {s.before, s.after} && (b == [] || b == s.files)
    requires cfg == Over(s, cfg.active) && cfg.active in {Both(s), [s.a], [s.b]}
    requires ofA in {LeafFailed, ListsA(a)} && f in {s.a, s.b} && (f == s.a ==> ofA == ListsA(a))
    requires listing == (if f == s.a then [a] else b) && CatalogOk(s.env, Home(s), t, listing, f)
    requires DeltaStep(t, cfg, std, [], Site(s, ofA, b), t')
    ensures r.cfg == cfg && r.std == std && r.oce == [] && Runs(s.env, t, r, t') && Plays(r.work, Site(s, ofA, b))
    ensures CatalogOk(s.env, Home(s), t', listing, f)
    ensures if Mark(f, f) in DirtyOf(r) then UpToDate(t', KeyOf(s.env, f), listing)
            else SameFolder(t, t', KeyOf(s.env, f))
  {
    var w := WorldOf(s, t, a, b, std);
    OfTheScene(s, cfg.active);
    FolderOf(s, t, a, b, std, f, listing);
    SiteObliges(s, w, cfg, ofA, b, f);
    r := ProgramRunServes(s.env, Home(s), f, w, cfg, Site(s, ofA, b), t');
  }

  // ---- First run: folder a is crawled ---------------------------------------------------------

  /** Folder a was crawled and holds its old version, folder b was never crawled. */
  ghost predicate OnlyACrawled(s: Scene, t: Tables) {
    && CatalogOk(s.env, Home(s), t, [s.before], s.a) && CatalogOk(s.env, Home(s), t, [], s.b)
    && CrawledAt(t, KeyA(s)).Some? && Stored(t, KeyA(s)) == Rows([s.before]) && CrawledAt(t, KeyB(s)).None?
  }

  lemma {:induction false} EmptyIsInOrder(env: string, home: string -> FolderKey, listing: seq<Listed>, f: string)
    ensures CatalogOk(env, home, Tables(map[], map[], 0), listing, f)
  {
  }

  lemma {:induction false} CatalogGrows(env: string, home: string -> FolderKey, t: Tables, before: seq<Listed>,
                                        after: seq<Listed>, f: string)
    requires CatalogOk(env, home, t, before, f) && Ids(before) <= Ids(after)
    ensures CatalogOk(env, home, t, after, f)
  {
  }

  lemma {:induction false} CrawlA(s: Scene, t': Tables)
    requires FoldersOk(s)
    requires DeltaStep(Tables(map[], map[], 0), Over(s, [s.a]), [], [], Site(s, ListsA(s.before), []), t')
    ensures OnlyACrawled(s, t')
  {
    var t := Tables(map[], map[], 0);
    EmptyIsInOrder(s.env, Home(s), [s.before], s.a);
    EmptyIsInOrder(s.env, Home(s), [], s.b);
    var r := SceneRun(s, t, s.before, [], [], Over(s, [s.a]), ListsA(s.before), s.a, [s.before], t');
    FlatFolderIsDirtyExactly(s.env, t, r, t', s.a);
    BNotCrawled(s, t, r, t');
  }

  lemma {:induction false} BNotCrawled(s: Scene, t: Tables, r: Run, t': Tables)
    requires FoldersOk(s) && t == Tables(map[], map[], 0) && Runs(s.env, t, r, t') && r.cfg.active == [s.a]
    requires CatalogOk(s.env, Home(s), t', [s.before], s.a)
    ensures CatalogOk(s.env, Home(s), t', [], s.b) && CrawledAt(t', KeyB(s)).None?
  {
    WorkIsActive(s.env, t, r, t');
    UncompletedStep(s.env, t, r, t', s.b);
    NothingUnderB(s, t, r, t');
  }

  lemma {:induction false} NothingUnderB(s: Scene, t: Tables, r: Run, t': Tables)
    requires FoldersOk(s) && t == Tables(map[], map[], 0) && Runs(s.env, t, r, t')
    requires forall p :: p in r.work ==> p.folder == s.a
    ensures KeyB(s) !in t'.folders
  {
    KeysApart(s);
    WorkAddsItsOwn(t, r.cfg, r.work);
  }

  lemma {:induction false} WorkAddsItsOwn(t: Tables, cfg: Config, work: seq<ParentWork>)
    requires Assigned(cfg, work)
    ensures forall k :: k in ApplyWork(t, cfg, work).tables.folders ==>
              k in t.folders || exists p :: p in work && k == ParentKey(cfg, p.folder)
    decreases |work|
  {
    if work != [] {
      ParentAddsItsOwn(t, cfg, work[0]);
      if !ApplyParent(t, cfg, work[0]).interrupted {
        WorkAddsItsOwn(ApplyParent(t, cfg, work[0]).tables, cfg, work[1..]);
        assert work[0] in work && forall p :: p in work[1..] ==> p in work;
      }
    }
  }

  // ---- Second run: b is stored, a fails or is left out ----------------------------------------

  /** Folder b holds its files and folder a still has its old version, under an old crawl time. */
  ghost predicate ABehind(s: Scene, t: Tables) {
    && CatalogOk(s.env, Home(s), t, [s.before], s.a) && Stored(t, KeyB(s)) == Rows(s.files)
    && CrawledAt(t, KeyA(s)).Some? && Stored(t, KeyA(s)) == Rows([s.before])
  }

  /** Where every leaf of a fails, the run leaves a's crawl time and its file alone. */
  lemma {:induction false} FailedLeavesAlone(s: Scene, t: Tables, r: Run, t': Tables)
    requires FoldersOk(s) && Runs(s.env, t, r, t') && Plays(r.work, Site(s, LeafFailed, s.files)) &&
             SegmentApart(t, s.env, s.a)
    requires forall g :: g in r.cfg.active ==> g in {s.a, s.b}
    ensures CrawledAt(t', KeyA(s)) == CrawledAt(t, KeyA(s)) && SegmentApart(t', s.env, s.a) &&
            SameRow(t, t', s.before.fileId)
  {
    WorkIsActive(s.env, t, r, t');
    forall p, l | p in r.work && l in p.leaves
      ensures !Lists(l, s.before.fileId) && (p.folder == s.a ==> l.outcome.LeafFailed?)
    {
      assert l.outcome == Site(s, LeafFailed, s.files).leaf(p.folder, l.leaf);
    }
    forall p | p in r.work && p.folder == s.a ensures !Completes(p) {
      assert p.leaves[0] in p.leaves;
    }
    UncompletedStep(s.env, t, r, t', s.a);
    WorkMisses(t, r.cfg, r.work, s.before.fileId);
  }

  lemma {:induction false} CrawlBAlone(s: Scene, t: Tables, active: seq<string>, t': Tables)
    requires FoldersOk(s) && OnlyACrawled(s, t) && active in {Both(s), [s.b]}
    requires DeltaStep(t, Over(s, active), s.log, [], Site(s, LeafFailed, s.files), t')
    ensures ABehind(s, t')
  {
    CatalogGrows(s.env, Home(s), t, [], s.files, s.b);
    OfTheScene(s, active);
    var r := SceneRun(s, t, s.after, s.files, s.log, Over(s, active), LeafFailed, s.b, s.files, t');
    FlatFolderIsDirtyExactly(s.env, t, r, t', s.b);
    FailedLeavesAlone(s, t, r, t');
    KeepsOldRow(s, t, r, t');
  }

  lemma {:induction false} KeepsOldRow(s: Scene, t: Tables, r: Run, t': Tables)
    requires FoldersOk(s) && Runs(s.env, t, r, t') && TablesOk(t') && AtHome(t', Home(s)) &&
             SameRow(t, t', s.before.fileId)
    requires KeyA(s) in t.folders && Stored(t, KeyA(s)) == Rows([s.before])
    ensures Stored(t', KeyA(s)) == Rows([s.before])
  {
    OneFile(s.before);
    KeysApart(s);
    WorkKeepsIds(t, r.cfg, r.work);
    forall x | x in Stored(t', KeyA(s)) ensures x == s.before.fileId {
      assert t'.folders[Home(s)(x)].id == t'.folders[KeyA(s)].id;
    }
    OneRowKept(t, t', KeyA(s), s.before);
  }

  lemma {:induction false} OneRowKept(t: Tables, t': Tables, key: FolderKey, x: Listed)
    requires key in t.folders && key in t'.folders && t.folders[key].id == t'.folders[key].id &&
             SameRow(t, t', x.fileId)
    requires Stored(t, key) == map[x.fileId := x.data] && Stored(t', key).Keys <= {x.fileId}
    ensures Stored(t', key) == map[x.fileId := x.data]
  {
    assert x.fileId in Stored(t, key) && Stored(t, key)[x.fileId] == x.data;
  }

  // ---- Third run: nothing is found ------------------------------------------------------------

  lemma {:induction false} StoredWhenBehind(s: Scene, t: Tables, x: string)
    requires FoldersOk(s) && ABehind(s, t) && x in t.files
    ensures Listed(x, t.files[x].data) in [s.before] + s.files
  {
    OneFile(s.before);
    RowsLookup(s.files);
    if x == s.before.fileId {
      assert x in Stored(t, KeyA(s)) && Stored(t, KeyA(s))[x] == t.files[x].data;
    } else {
      assert x in Stored(t, KeyB(s)) && Stored(t, KeyB(s))[x] == t.files[x].data;
      var y :| y in s.files && y.fileId == x;
    }
  }

  lemma {:induction false} NamesApartWhenBehind(s: Scene, t: Tables, cfg: Config)
    requires FoldersOk(s) && NamesApart([s.before] + s.files) && ABehind(s, t)
    ensures BaseNamesApart(t, cfg)
  {
    forall x, y | x in t.files && y in t.files &&
      StripExtension(t.files[x].data.name) == StripExtension(t.files[y].data.name)
      ensures x == y
    {
      SameBaseSameRow(s, t, x, y);
    }
  }

  lemma {:induction false} SameBaseSameRow(s: Scene, t: Tables, x: string, y: string)
    requires FoldersOk(s) && NamesApart([s.before] + s.files) && ABehind(s, t) && x in t.files && y in t.files
    requires StripExtension(t.files[x].data.name) == StripExtension(t.files[y].data.name)
    ensures x == y
  {
    StoredWhenBehind(s, t, x);
    StoredWhenBehind(s, t, y);
    assert Listed(x, t.files[x].data) == Listed(y, t.files[y].data);
  }

  lemma {:induction false} ReportedIsKnown(s: Scene, t: Tables, x: Record)
    requires FoldersOk(s) && ABehind(s, t) && Reports(s.files, x)
    ensures Known(t, s.env, x)
  {
    var y :| y in s.files && StripExtension(y.data.name) == StripExtension(x.fileName) &&
             y.data.lastUpdated.Some? && x.time <= y.data.lastUpdated.value;
    RowsLookup(s.files);
    assert Holds(t, KeyOf(s.env, s.b), y);
  }

  lemma {:induction false} OldVersionIsDirty(s: Scene, t: Tables, cfg: Config, db: FileIndex, x: Record)
    requires FoldersOk(s) && NamesApart([s.before] + s.files) && ABehind(s, t) && FileIndexOf(db, t, cfg) &&
             cfg.env == s.env
    requires OutdatedBy(s.before, x)
    ensures Dirty(db, x)
  {
    NamesApartWhenBehind(s, t, cfg);
    OneFile(s.before);
    HeldIsIndexed(t, cfg, db, s.a, s.before);
  }

  /** Any further run over both folders and the same log: a's update is in the log and dirty, and a is not marked. */
  lemma {:induction false} BehindIsNotMarked(s: Scene, t: Tables, next: Run, t': Tables)
    requires SceneOk(s) && ABehind(s, t)
    requires Runs(s.env, t, next, t') && next.cfg == Over(s, Both(s)) && next.std == s.log && next.oce == []
    ensures exists x :: x in Records(Standard, Both(s), s.log) && x.folder == s.a && Dirty(next.db, x)
    ensures Mark(s.a, s.a) !in DirtyOf(next)
  {
    var x :| x in Records(Standard, Both(s), s.log) && x.folder == s.a && OutdatedBy(s.before, x);
    OldVersionIsDirty(s, t, next.cfg, next.db, x);
    NamesApartWhenBehind(s, t, next.cfg);
    var records := SortNewestFirst(Records(Standard, Both(s), s.log));
    forall i | 0 <= i < 3 ensures Known(t, s.env, records[i]) {
      ReportedIsKnown(s, t, records[i]);
    }
    KnownNewestHideTheRest(s.env, t, next, t', s.a);
  }

  /** A crawled folder whose crawl fails, or which the run leaves out, while another folder's newer files are stored: no
      run after that marks it, although its update is in the log and its record is dirty. */
  lemma {:induction false} FailedLeafForgotten(s: Scene, t: Tables, active: seq<string>, t': Tables, next: Run,
                                               t'': Tables)
    requires SceneOk(s) && OnlyACrawled(s, t) && active in {Both(s), [s.b]}
    requires DeltaStep(t, Over(s, active), s.log, [], Site(s, LeafFailed, s.files), t')
    requires Runs(s.env, t', next, t'') && next.cfg == Over(s, Both(s)) && next.std == s.log && next.oce == []
    ensures exists x :: x in Records(Standard, Both(s), s.log) && x.folder == s.a && Dirty(next.db, x)
    ensures Mark(s.a, s.a) !in DirtyOf(next)
  {
    CrawlBAlone(s, t, active, t');
    BehindIsNotMarked(s, t', next, t'');
  }

  lemma {:induction false} StaysBehind(s: Scene, t: Tables, t': Tables)
    requires SceneOk(s) && ABehind(s, t)
    requires DeltaStep(t, Over(s, Both(s)), s.log, [], Site(s, ListsA(s.after), s.files), t')
    ensures Stored(t', KeyA(s)) == Rows([s.before]) && !UpToDate(t', KeyA(s), [s.after])
  {
    OneFile(s.before);
    OneFile(s.after);
    CatalogGrows(s.env, Home(s), t, [s.before], [s.after], s.a);
    var r := SceneRun(s, t, s.after, s.files, s.log, Over(s, Both(s)), ListsA(s.after), s.a, [s.after], t');
    BehindIsNotMarked(s, t, r, t');
    OldVersionIsNotCurrent(s, t');
  }

  lemma {:induction false} OldVersionIsNotCurrent(s: Scene, t: Tables)
    requires FoldersOk(s) && Stored(t, KeyA(s)) == Rows([s.before])
    ensures !UpToDate(t, KeyA(s), [s.after])
  {
    OneFile(s.before);
    OneFile(s.after);
    assert Rows([s.before])[s.before.fileId] != Rows([s.after])[s.before.fileId];
  }

  /** Three runs of the program. The first crawls a. The second, after an update of a and new files of b, either fails
      to list a or does not have it active, and stores b's files. In the third nothing fails, and a keeps its old
      version. */
  method UpdateForgotten(s: Scene, narrow: bool) returns (database: Database)
    requires SceneOk(s)
    ensures fresh(database)
    ensures Stored(database.State(), KeyA(s)) == Rows([s.before]) && !UpToDate(database.State(), KeyA(s), [s.after])
  {
    var active := if narrow then [s.b] else Both(s);
    database := new Database();
    var first := RunDelta(database, Over(s, [s.a]), false, false, Fetched([], []), Site(s, ListsA(s.before), []));
    CrawlA(s, database.State());
    ghost var t1 := database.State();
    var second := RunDelta(database, Over(s, active), false, false, Fetched(s.log, []), Site(s, LeafFailed, s.files));
    CrawlBAlone(s, t1, active, database.State());
    ghost var t2 := database.State();
    var site := Site(s, ListsA(s.after), s.files);
    var third := RunDelta(database, Over(s, Both(s)), false, false, Fetched(s.log, []), site);
    StaysBehind(s, t2, database.State());
  }

  // ---- A scene --------------------------------------------------------------------------------

  function FileAt(id: string, name: string, time: int): Listed {
    Listed(id, FileData(name, 1, 1, Some(time), "h"))
  }

  function NewFiles(): seq<Listed> {
    [FileAt("f1", "b1", 20), FileAt("f2", "b2", 21), FileAt("f3", "b3", 22)]
  }

  /** An update of folder a's file, then three new files of folder b. */
  function News(): seq<LogRow> {
    [LogRow(Some("a1"), None, Some(10)), LogRow(Some("b1"), None, Some(20)),
     LogRow(Some("b2"), None, Some(21)), LogRow(Some("b3"), None, Some(22))]
  }

  function Example(): Scene {
    Scene("p", "D", "a", "b", FileAt("f0", "a1", 5), FileAt("f0", "a1", 10), NewFiles(), News(), 22)
  }

  lemma {:induction false} OneCharacter(s: string, c: char)
    ensures Contains(s, [c]) <==> c in s
  {
    if c in s {
      var i :| 0 <= i < |s| && s[i] == c;
      assert s[i..i + 1] == [c];
      assert OccursAt(s, [c], i);
    }
    if i :| 0 <= i <= |s| && OccursAt(s, [c], i) {
      assert s[i..i + 1][0] == c;
    }
  }

  lemma {:induction false} RowOfNews(name: string, time: int)
    requires name in {"a1", "b1", "b2", "b3"}
    ensures StandardRecord(["a", "b"], LogRow(Some(name), None, Some(time))) ==
            Some(Record(name, if name == "a1" then "a" else "b", time))
  {
    OneCharacter(name, 'a');
    OneCharacter(name, 'b');
    assert ["a", "b"][1..] == ["b"];
  }

  lemma {:induction false} RecordsOfNews()
    ensures Records(Standard, ["a", "b"], News()) ==
            [Record("a1", "a", 10), Record("b1", "b", 20), Record("b2", "b", 21), Record("b3", "b", 22)]
  {
    var active, news := ["a", "b"], News();
    RowOfNews("a1", 10);
    RowOfNews("b1", 20);
    RowOfNews("b2", 21);
    RowOfNews("b3", 22);
    assert news[1..][1..] == news[2..] && news[2..][1..] == news[3..] && news[3..][1..] == [];
    assert Records(Standard, active, news[3..]) == [Record("b3", "b", 22)] + Records(Standard, active, []);
    assert Records(Standard, active, news[2..]) == [Record("b2", "b", 21)] + Records(Standard, active, news[3..]);
    assert Records(Standard, active, news[1..]) == [Record("b1", "b", 20)] + Records(Standard, active, news[2..]);
  }

  lemma {:induction false} FourSorted(r0: Record, r1: Record, r2: Record, r3: Record)
    requires r0.time < r1.time < r2.time < r3.time
    ensures SortNewestFirst([r0, r1, r2, r3]) == [r3, r2, r1, r0]
  {
    assert [r0, r1, r2, r3][1..] == [r1, r2, r3] && [r1, r2, r3][1..] == [r2, r3] && [r2, r3][1..] == [r3] &&
           [r3][1..] == [];
    assert SortNewestFirst([r3]) == InsertByTime(r3, []) == [r3];
    InsertLast(r2, [r3]);
    assert SortNewestFirst([r2, r3]) == InsertByTime(r2, [r3]) == [r3, r2];
    InsertLast(r1, [r3, r2]);
    assert SortNewestFirst([r1, r2, r3]) == InsertByTime(r1, [r3, r2]) == [r3, r2] + [r1] == [r3, r2, r1];
    InsertLast(r0, [r3, r2, r1]);
    assert [r3, r2, r1] + [r0] == [r3, r2, r1, r0];
  }

  lemma {:induction false} InsertLast(r: Record, sorted: seq<Record>)
    requires forall x :: x in sorted ==> x.time > r.time
    ensures InsertByTime(r, sorted) == sorted + [r]
  {
    if sorted != [] {
      assert sorted[0] in sorted && forall x :: x in sorted[1..] ==> x in sorted;
      InsertLast(r, sorted[1..]);
    }
  }

  lemma {:induction false} ThreeDistinct(x: Listed, y: Listed, z: Listed)
    requires x.fileId != y.fileId && y.fileId != z.fileId && x.fileId != z.fileId
    ensures DistinctIds([x, y, z]) && Ids([x, y, z]) == {x.fileId, y.fileId, z.fileId}
  {
    var files := [x, y, z];
    assert files[1..] == [y, z] && [y, z][1..] == [z];
    OneFile(z);
    assert Ids([y, z]) == {y.fileId, z.fileId} by {
      assert [y, z][0] in [y, z] && [y, z][1] in [y, z];
    }
    assert DistinctIds([y, z]);
    assert files[0] in files && files[1] in files && files[2] in files;
  }

  lemma {:induction false} FourApart(w: Listed, x: Listed, y: Listed, z: Listed)
    requires |{StripExtension(w.data.name), StripExtension(x.data.name), StripExtension(y.data.name),
               StripExtension(z.data.name)}| == 4
    ensures NamesApart([w] + [x, y, z])
  {
    assert [w] + [x, y, z] == [w, x, y, z];
  }

  lemma {:induction false} ExampleFolders()
    ensures FoldersOk(Example())
  {
    assert |EVOLUTION| > 1;
    ThreeDistinct(FileAt("f1", "b1", 20), FileAt("f2", "b2", 21), FileAt("f3", "b3", 22));
  }

  lemma {:induction false} ShortNameStays(name: string)
    requires name in {"a1", "b1", "b2", "b3"}
    ensures StripExtension(name) == name
  {
    assert name[|name| - 1] in {'1', '2', '3'};
  }

  lemma {:induction false} ExampleNames()
    ensures NamesApart([Example().before] + Example().files)
  {
    ShortNameStays("a1");
    ShortNameStays("b1");
    ShortNameStays("b2");
    ShortNameStays("b3");
    FourApart(FileAt("f0", "a1", 5), FileAt("f1", "b1", 20), FileAt("f2", "b2", 21), FileAt("f3", "b3", 22));
  }

  /** Four records in log order: the first is the update, the others are of b's files. */
  lemma {:induction false} NewestOfFour(s: Scene, r0: Record, r1: Record, r2: Record, r3: Record)
    requires NamesApart([s.before] + s.files) && Records(Standard, Both(s), s.log) == [r0, r1, r2, r3]
    requires r0.time < r1.time < r2.time < r3.time && r0.folder == s.a && OutdatedBy(s.before, r0)
    requires Reports(s.files, r1) && Reports(s.files, r2) && Reports(s.files, r3)
    ensures LogOk(s)
  {
    FourSorted(r0, r1, r2, r3);
    assert r0 in Records(Standard, Both(s), s.log);
  }

  lemma {:induction false} Reported(y: Listed, x: Record)
    requires y in NewFiles() && y.data.name == x.fileName && y.data.lastUpdated == Some(x.time)
    ensures Reports(NewFiles(), x)
  {
  }

  /** There is such a scene. */
  lemma {:induction false} ExampleIsOk()
    ensures SceneOk(Example())
  {
    ExampleFolders();
    ExampleNames();
    RecordsOfNews();
    ShortNameStays("a1");
    Reported(FileAt("f3", "b3", 22), Record("b3", "b", 22));
    Reported(FileAt("f2", "b2", 21), Record("b2", "b", 21));
    Reported(FileAt("f1", "b1", 20), Record("b1", "b", 20));
    NewestOfFour(Example(), Record("a1", "a", 10), Record("b1", "b", 20), Record("b2", "b", 21), Record("b3", "b", 22));
  }
}
