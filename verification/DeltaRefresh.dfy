/** One run of the delta refresh: detect dirty leaves, crawl them, commit leaf by leaf, checkpoint each parent. */
module DeltaRefresh {
  import opened Prelude
  import opened Text
  import opened Catalog
  import opened DeltaScan

  /** The environment and the active folders, in order, with the domain of each. */
  datatype Config = Config(env: string, active: seq<string>, domainOf: map<string, string>)

  predicate ConfigOk(cfg: Config) {
    forall f :: f in cfg.active ==> IsSegment(f) && f in cfg.domainOf
  }

  function KeyOf(env: string, folder: string): FolderKey {
    FolderKey(Lower(env), "/TP_export/" + folder + "/")
  }

  function ParentKey(cfg: Config, folder: string): FolderKey {
    KeyOf(cfg.env, folder)
  }

  // ---- What the outside world does during a crawl ---------------------------------------------

  /** How control leaves a step whose effect has reached the database. */
  datatype Ending = Returns | Raises | Interrupted

  datatype StepOutcome = Ensured(ending: Ending) | StepFailed | StepInterrupted
  datatype LeafOutcome = Crawled(files: seq<Listed>, ending: Ending) | LeafFailed | LeafInterrupted
  datatype CheckpointOutcome = Saved(now: int, ending: Ending) | NotSaved | CheckpointInterrupted

  datatype LeafWork = LeafWork(leaf: string, outcome: LeafOutcome)
  datatype ParentWork = ParentWork(folder: string, init: StepOutcome, leaves: seq<LeafWork>,
                                   checkpoint: CheckpointOutcome)

  /** How each database step and each crawl turns out, by parent folder and leaf. */
  datatype Environment = Environment(init: string -> StepOutcome, leaf: (string, string) -> LeafOutcome,
                                     checkpoint: string -> CheckpointOutcome)

  ghost predicate Plays(work: seq<ParentWork>, world: Environment) {
    forall w :: w in work ==>
      && w.init == world.init(w.folder)
      && w.checkpoint == world.checkpoint(w.folder)
      && forall l :: l in w.leaves ==> l.outcome == world.leaf(w.folder, l.leaf)
  }

  function Leaves(w: ParentWork): set<string> {
    set l | l in w.leaves :: l.leaf
  }

  /** The work visits every dirty parent once, and under it exactly its dirty leaves, in some order. */
  ghost predicate Enumerates(work: seq<ParentWork>, dirty: set<Mark>) {
    && (forall i, j :: 0 <= i < j < |work| ==> work[i].folder != work[j].folder)
    && (forall w, m :: w in work && m in dirty && m.parent == w.folder ==> m.leaf in Leaves(w))
    && (forall w, l :: w in work && l in w.leaves ==> Mark(w.folder, l.leaf) in dirty)
    && (forall w :: w in work ==> forall i, j :: 0 <= i < j < |w.leaves| ==> w.leaves[i].leaf != w.leaves[j].leaf)
    && (forall w :: w in work ==> w.leaves != [])
    && (forall m :: m in dirty ==> exists w :: w in work && w.folder == m.parent)
  }

  // ---- The two indexes read from the catalogue ------------------------------------------------

  /** Base name to last update, over the file rows of the environment; among rows sharing a base name any may win. */
  ghost predicate FileIndexOf(index: FileIndex, t: Tables, cfg: Config) {
    && (forall f :: f in t.files && InEnvironment(t, cfg, f) ==> StripExtension(t.files[f].data.name) in index)
    && (forall b :: b in index ==> exists f :: f in t.files && InEnvironment(t, cfg, f) &&
                                               StripExtension(t.files[f].data.name) == b &&
                                               t.files[f].data.lastUpdated == index[b])
  }

  predicate InEnvironment(t: Tables, cfg: Config, f: string)
    requires f in t.files
  {
    exists k :: k in t.folders && k.env == Lower(cfg.env) && t.folders[k].id == t.files[f].folderId
  }

  function LastSegment(path: string): string {
    var parts := Split(Strip(path, '/'), '/');
    parts[|parts| - 1]
  }

  type CrawlIndex = map<string, Option<int>>

  /** Last path segment to crawl time, over the folder rows of the environment. */
  ghost predicate CrawlIndexOf(index: CrawlIndex, t: Tables, cfg: Config) {
    && (forall k :: k in t.folders && k.env == Lower(cfg.env) ==> LastSegment(k.path) in index)
    && (forall s :: s in index ==> exists k :: k in t.folders && k.env == Lower(cfg.env) && LastSegment(k.path) == s &&
                                               t.folders[k].crawledAt == index[s])
  }

  predicate NeverCrawled(index: CrawlIndex, folder: string) {
    folder !in index || index[folder].None?
  }

  // ---- Detection ------------------------------------------------------------------------------

  /** The dirty map of a run: folders never crawled, then what each log scan marks. */
  function Detect(cfg: Config, crawled: CrawlIndex, db: FileIndex, std: seq<LogRow>, oce: seq<LogRow>): set<Mark> {
    (set f | f in cfg.active && NeverCrawled(crawled, f) :: Mark(f, f))
    + Scan(db, SortNewestFirst(Records(Standard, cfg.active, std)), 0)
    + Scan(db, SortNewestFirst(Records(Evolution, cfg.active, oce)), 0)
  }

  // ---- The crawl, as a function of the tables -------------------------------------------------

  datatype LeafPass = LeafPass(tables: Tables, allSucceeded: bool, interrupted: bool)

  predicate LeafInterrupts(l: LeafWork) {
    l.outcome.LeafInterrupted? || (l.outcome.Crawled? && l.outcome.ending == Interrupted)
  }

  /** The leaf is crawled, its records are accepted, and nothing raises. */
  predicate LeafSucceeds(l: LeafWork) {
    l.outcome.Crawled? && DistinctIds(l.outcome.files) && l.outcome.ending == Returns
  }

  /** The tables once the leaf is dealt with, however that ends. */
  function AfterLeaf(t: Tables, id: nat, l: LeafWork): Tables {
    if l.outcome.Crawled? then UpsertLeaf(t, id, l.outcome.files).GetOr(t) else t
  }

  function ApplyLeaves(t: Tables, id: nat, leaves: seq<LeafWork>): LeafPass
    decreases |leaves|
  {
    if leaves == [] then LeafPass(t, true, false)
    else if LeafInterrupts(leaves[0]) then LeafPass(AfterLeaf(t, id, leaves[0]), false, true)
    else
      var rest := ApplyLeaves(AfterLeaf(t, id, leaves[0]), id, leaves[1..]);
      rest.(allSucceeded := LeafSucceeds(leaves[0]) && rest.allSucceeded)
  }

  datatype Pass = Pass(tables: Tables, interrupted: bool)

  lemma {:induction false} LeavesKeepFolders(t: Tables, id: nat, leaves: seq<LeafWork>)
    ensures ApplyLeaves(t, id, leaves).tables.folders == t.folders
    ensures ApplyLeaves(t, id, leaves).tables.nextId == t.nextId
    decreases |leaves|
  {
    if leaves != [] {
      LeavesKeepFolders(AfterLeaf(t, id, leaves[0]), id, leaves[1..]);
    }
  }

  /** A parent's folder row and leaves, up to its checkpoint. */
  function CrawlParent(t: Tables, cfg: Config, w: ParentWork): (pass: LeafPass)
    requires w.folder in cfg.domainOf
    ensures pass.tables.folders == EnsureFolder(t, ParentKey(cfg, w.folder), cfg.domainOf[w.folder]).folders
  {
    var key := ParentKey(cfg, w.folder);
    var t1 := EnsureFolder(t, key, cfg.domainOf[w.folder]);
    LeavesKeepFolders(t1, t1.folders[key].id, w.leaves);
    ApplyLeaves(t1, t1.folders[key].id, w.leaves)
  }

  ghost function ApplyParent(t: Tables, cfg: Config, w: ParentWork): Pass
    requires w.folder in cfg.domainOf
  {
    if w.init == StepFailed then Pass(t, false)
    else if w.init == StepInterrupted then Pass(t, true)
    else if w.init.ending != Returns then
      Pass(EnsureFolder(t, ParentKey(cfg, w.folder), cfg.domainOf[w.folder]), w.init.ending == Interrupted)
    else
      var pass := CrawlParent(t, cfg, w);
      if pass.interrupted then Pass(pass.tables, true)
      else match w.checkpoint
        case Saved(now, ending) => Pass(Checkpoint(pass.tables, ParentKey(cfg, w.folder), pass.allSucceeded, now),
                                        ending == Interrupted)
        case NotSaved => Pass(pass.tables, false)
        case CheckpointInterrupted => Pass(pass.tables, true)
  }

  predicate Assigned(cfg: Config, work: seq<ParentWork>) {
    forall w :: w in work ==> w.folder in cfg.domainOf
  }

  ghost function ApplyWork(t: Tables, cfg: Config, work: seq<ParentWork>): Pass
    requires Assigned(cfg, work)
    decreases |work|
  {
    if work == [] then Pass(t, false)
    else
      var pass := ApplyParent(t, cfg, work[0]);
      if pass.interrupted then pass else ApplyWork(pass.tables, cfg, work[1..])
  }

  /** What one run that reaches detection may do to the catalogue. */
  ghost predicate DeltaStep(t: Tables, cfg: Config, std: seq<LogRow>, oce: seq<LogRow>, world: Environment,
                            t': Tables)
  {
    exists db: FileIndex, crawled: CrawlIndex, work: seq<ParentWork> ::
      DeltaRun(t, cfg, std, oce, db, crawled, work, t') && Plays(work, world)
  }

  ghost predicate DeltaRun(t: Tables, cfg: Config, std: seq<LogRow>, oce: seq<LogRow>, db: FileIndex,
                           crawled: CrawlIndex, work: seq<ParentWork>, t': Tables)
  {
    && FileIndexOf(db, t, cfg) && CrawlIndexOf(crawled, t, cfg)
    && Enumerates(work, Detect(cfg, crawled, db, std, oce))
    && Assigned(cfg, work)
    && t' == ApplyWork(t, cfg, work).tables
  }

  // ---- The run itself -------------------------------------------------------------------------

  /** How fetching the logs ends: a failed root listing or an oversized log is re-raised, any other failure is not. */
  datatype LogFetch = Fetched(std: seq<LogRow>, oce: seq<LogRow>) | PipelineError | DownloadFailed

  datatype RunOutcome = FullScanCalled | NoCallback | NothingToMonitor | Refused | NothingDirty | Finished | Stopped

  /** The same, with how the run ends: there was nothing to do, it went through all of its work, or an interrupt stopped
      it. */
  ghost predicate DeltaEnds(t: Tables, cfg: Config, std: seq<LogRow>, oce: seq<LogRow>, world: Environment, t': Tables,
                            outcome: RunOutcome)
  {
    exists db: FileIndex, crawled: CrawlIndex, work: seq<ParentWork> ::
      && DeltaRun(t, cfg, std, oce, db, crawled, work, t') && Plays(work, world)
      && (outcome == NothingDirty <==> Detect(cfg, crawled, db, std, oce) == {})
      && (outcome == Stopped <==> ApplyWork(t, cfg, work).interrupted)
  }

  method BuildFileIndex(database: Database, cfg: Config) returns (index: FileIndex)
    ensures FileIndexOf(index, database.State(), cfg)
  {
    index := map[];
    var t := database.State();
    var rest := set f | f in t.files && InEnvironment(t, cfg, f);
    ghost var all := rest;
    while rest != {}
      invariant rest <= all
      invariant forall f :: f in all - rest ==> StripExtension(t.files[f].data.name) in index
      invariant forall b :: b in index ==> exists f :: f in all && StripExtension(t.files[f].data.name) == b &&
                                                       t.files[f].data.lastUpdated == index[b]
      decreases |rest|
    {
      var f :| f in rest;
      index := index[StripExtension(t.files[f].data.name) := t.files[f].data.lastUpdated];
      rest := rest - {f};
    }
  }

  method BuildCrawlIndex(database: Database, cfg: Config) returns (index: CrawlIndex)
    ensures CrawlIndexOf(index, database.State(), cfg)
  {
    index := map[];
    var t := database.State();
    var rest := set k | k in t.folders && k.env == Lower(cfg.env);
    ghost var all := rest;
    while rest != {}
      invariant rest <= all
      invariant forall k :: k in all - rest ==> LastSegment(k.path) in index
      invariant forall s :: s in index ==>
                exists k :: k in all && LastSegment(k.path) == s && t.folders[k].crawledAt == index[s]
      decreases |rest|
    {
      var k :| k in rest;
      index := index[LastSegment(k.path) := t.folders[k].crawledAt];
      rest := rest - {k};
    }
  }

  /** Steps 3 to 6 of the run: read the catalogue, mark never-crawled folders, scan both logs. */
  method DetectDirty(database: Database, cfg: Config, std: seq<LogRow>, oce: seq<LogRow>)
    returns (dirty: set<Mark>, ghost db: FileIndex, ghost crawled: CrawlIndex)
    ensures FileIndexOf(db, database.State(), cfg) && CrawlIndexOf(crawled, database.State(), cfg)
    ensures dirty == Detect(cfg, crawled, db, std, oce)
    ensures forall m :: m in dirty ==> m.parent in cfg.active
  {
    var files := BuildFileIndex(database, cfg);
    var folders := BuildCrawlIndex(database, cfg);
    db, crawled := files, folders;
    dirty := {};
    for i := 0 to |cfg.active|
      invariant dirty == set f | f in cfg.active[..i] && NeverCrawled(folders, f) :: Mark(f, f)
    {
      assert cfg.active[..i + 1] == cfg.active[..i] + [cfg.active[i]];
      if NeverCrawled(folders, cfg.active[i]) {
        dirty := dirty + {Mark(cfg.active[i], cfg.active[i])};
      }
    }
    assert cfg.active[..|cfg.active|] == cfg.active;
    var examined: nat;
    var stdRecords := CollectRecords(Standard, cfg.active, std);
    dirty, examined := ScanLog(files, SortNewestFirst(stdRecords), dirty);
    var oceRecords := CollectRecords(Evolution, cfg.active, oce);
    dirty, examined := ScanLog(files, SortNewestFirst(oceRecords), dirty);
    DirtyParentsAreActive(cfg, crawled, db, std, oce);
  }

  /** The order in which one parent's set of leaves happens to be visited. */
  method LeafOrder(mine: set<Mark>, parent: string, world: Environment) returns (leaves: seq<LeafWork>)
    requires forall m :: m in mine ==> m.parent == parent
    ensures forall m :: m in mine ==> exists l :: l in leaves && l.leaf == m.leaf
    ensures forall l :: l in leaves ==> Mark(parent, l.leaf) in mine && l.outcome == world.leaf(parent, l.leaf)
    ensures forall i, j :: 0 <= i < j < |leaves| ==> leaves[i].leaf != leaves[j].leaf
  {
    leaves := [];
    var left := mine;
    while left != {}
      invariant left <= mine
      invariant forall m :: m in mine - left ==> exists l :: l in leaves && l.leaf == m.leaf
      invariant forall l :: l in leaves ==>
                Mark(parent, l.leaf) in mine - left && l.outcome == world.leaf(parent, l.leaf)
      invariant forall i, j :: 0 <= i < j < |leaves| ==> leaves[i].leaf != leaves[j].leaf
      decreases |left|
    {
      var m :| m in left;
      var l := LeafWork(m.leaf, world.leaf(parent, m.leaf));
      assert forall k :: k in leaves ==> k.leaf != m.leaf;
      assert l in leaves + [l];
      leaves := leaves + [l];
      left := left - {m};
    }
  }

  /** So far `work` covers everything dirty except `rest`, whose parents are all still to come. */
  ghost predicate Visiting(work: seq<ParentWork>, dirty: set<Mark>, rest: set<Mark>, world: Environment) {
    && rest <= dirty
    && Enumerates(work, dirty - rest) && Plays(work, world)
    && (forall w, m :: w in work && m in rest ==> m.parent != w.folder)
    && (forall w :: w in work ==> exists m :: m in dirty && m.parent == w.folder)
  }

  lemma {:induction false} VisitMore(work: seq<ParentWork>, dirty: set<Mark>, rest: set<Mark>, world: Environment,
                                     w: ParentWork, mine: set<Mark>)
    requires Visiting(work, dirty, rest, world)
    requires mine == (set m | m in rest && m.parent == w.folder) && mine != {}
    requires Plays([w], world)
    requires forall m :: m in mine ==> m.leaf in Leaves(w)
    requires forall l :: l in w.leaves ==> Mark(w.folder, l.leaf) in mine
    requires forall i, j :: 0 <= i < j < |w.leaves| ==> w.leaves[i].leaf != w.leaves[j].leaf
    ensures Visiting(work + [w], dirty, rest - mine, world)
  {
    assert (dirty - rest) + mine == dirty - (rest - mine);
    var some :| some in mine;
    forall m | m in dirty - rest ensures m.parent != w.folder {
      var v :| v in work && v.folder == m.parent;
      assert v.folder != some.parent;
    }
    assert w.leaves != [] by { assert some.leaf in Leaves(w); }
    EnumeratesMore(work, dirty - rest, w, mine);
    assert w in [w];
  }

  /** The order in which the dirty map happens to be visited. */
  method VisitOrder(dirty: set<Mark>, world: Environment) returns (work: seq<ParentWork>)
    ensures Enumerates(work, dirty) && Plays(work, world)
    ensures forall w :: w in work ==> exists m :: m in dirty && m.parent == w.folder
    ensures dirty == {} ==> work == []
  {
    work := [];
    var rest := dirty;
    while rest != {}
      invariant Visiting(work, dirty, rest, world)
      invariant dirty == {} ==> work == []
      decreases |rest|
    {
      var first :| first in rest;
      var mine := set m | m in rest && m.parent == first.parent;
      assert first in mine;
      var leaves := LeafOrder(mine, first.parent, world);
      var w := ParentWork(first.parent, world.init(first.parent), leaves, world.checkpoint(first.parent));
      VisitMore(work, dirty, rest, world, w, mine);
      work := work + [w];
      rest := rest - mine;
    }
    assert dirty - rest == dirty;
  }

  lemma {:induction false} EnumeratesMore(work: seq<ParentWork>, done: set<Mark>, w: ParentWork, mine: set<Mark>)
    requires Enumerates(work, done)
    requires forall v :: v in work ==> v.folder != w.folder
    requires w.leaves != []
    requires forall m :: m in mine ==> m.parent == w.folder && m.leaf in Leaves(w)
    requires forall l :: l in w.leaves ==> Mark(w.folder, l.leaf) in mine
    requires forall i, j :: 0 <= i < j < |w.leaves| ==> w.leaves[i].leaf != w.leaves[j].leaf
    requires forall m :: m in done ==> m.parent != w.folder
    ensures Enumerates(work + [w], done + mine)
  {
    assert w in work + [w];
    forall m | m in done + mine ensures exists v :: v in work + [w] && v.folder == m.parent {
      if m in done {
        var v :| v in work && v.folder == m.parent;
        assert v in work + [w];
      }
    }
  }

  /** Step 7.2: crawl each leaf and commit its files at once; a failing leaf is skipped, an interrupt stops
      everything. */
  method CrawlLeaves(database: Database, id: nat, leaves: seq<LeafWork>) returns (allSucceeded: bool, interrupted: bool)
    modifies database
    ensures LeafPass(database.State(), allSucceeded, interrupted) == ApplyLeaves(old(database.State()), id, leaves)
  {
    allSucceeded, interrupted := true, false;
    var i := 0;
    while i < |leaves|
      invariant 0 <= i <= |leaves|
      invariant ApplyLeaves(old(database.State()), id, leaves) ==
                var rest := ApplyLeaves(database.State(), id, leaves[i..]);
                rest.(allSucceeded := allSucceeded && rest.allSucceeded)
    {
      assert leaves[i..][1..] == leaves[i + 1..];
      match leaves[i].outcome {
        case LeafInterrupted =>
          return false, true;
        case LeafFailed =>
          allSucceeded := false;
        case Crawled(files, ending) =>
          var ok := database.UpsertFiles(id, files);
          if ending == Interrupted {
            return false, true;
          }
          if !ok || ending == Raises {
            allSucceeded := false;
          }
      }
      i := i + 1;
    }
  }

  /** Step 7: every dirty parent in turn. */
  method CrawlDirty(database: Database, cfg: Config, work: seq<ParentWork>) returns (finished: bool)
    requires Assigned(cfg, work)
    modifies database
    ensures Pass(database.State(), !finished) == ApplyWork(old(database.State()), cfg, work)
  {
    var i := 0;
    while i < |work|
      invariant 0 <= i <= |work|
      invariant ApplyWork(old(database.State()), cfg, work) == ApplyWork(database.State(), cfg, work[i..])
    {
      var w := work[i];
      assert work[i..][1..] == work[i + 1..];
      i := i + 1;
      ghost var before := database.State();
      if w.init == StepInterrupted {
        return false;
      }
      if w.init == StepFailed {
        continue;
      }
      var key := ParentKey(cfg, w.folder);
      var id := database.EnsureFolderRow(key, cfg.domainOf[w.folder]);
      if w.init.ending == Interrupted {
        return false;
      }
      if w.init.ending == Raises {
        continue;
      }
      LeavesKeepFolders(database.State(), id, w.leaves);
      var allSucceeded, interrupted := CrawlLeaves(database, id, w.leaves);
      if interrupted {
        return false;
      }
      match w.checkpoint {
        case Saved(now, ending) =>
          database.SaveCheckpoint(key, allSucceeded, now);
          if ending == Interrupted {
            return false;
          }
        case NotSaved =>
        case CheckpointInterrupted =>
          return false;
      }
    }
    return true;
  }

  /** `run_delta_metadata_refresh`. */
  method RunDelta(database: Database, cfg: Config, isForce: bool, hasCallback: bool, logs: LogFetch, world: Environment)
    returns (outcome: RunOutcome)
    requires ConfigOk(cfg)
    modifies database
    ensures outcome in {NothingDirty, Finished, Stopped} <==> !isForce && cfg.active != [] && logs.Fetched?
    ensures outcome !in {Finished, Stopped} ==> database.State() == old(database.State())
    ensures outcome in {NothingDirty, Finished, Stopped} ==>
              DeltaStep(old(database.State()), cfg, logs.std, logs.oce, world, database.State()) &&
              DeltaEnds(old(database.State()), cfg, logs.std, logs.oce, world, database.State(), outcome)
    ensures outcome in {FullScanCalled, NoCallback} ==> (outcome == FullScanCalled <==> hasCallback)
    ensures outcome in {FullScanCalled, NoCallback} <==> isForce || (cfg.active != [] && logs.DownloadFailed?)
    ensures outcome == NothingToMonitor <==> !isForce && cfg.active == []
    ensures outcome == Refused <==> !isForce && cfg.active != [] && logs.PipelineError?
  {
    if isForce {
      return if hasCallback then FullScanCalled else NoCallback;
    }
    if cfg.active == [] {
      return NothingToMonitor;
    }
    match logs {
      case PipelineError =>
        return Refused;
      case DownloadFailed =>
        return if hasCallback then FullScanCalled else NoCallback;
      case Fetched(std, oce) =>
        var dirty, db, crawled := DetectDirty(database, cfg, std, oce);
        var work := VisitOrder(dirty, world);
        if dirty == {} {
          assert DeltaRun(old(database.State()), cfg, std, oce, db, crawled, work, database.State());
          return NothingDirty;
        }
        var finished := CrawlDirty(database, cfg, work);
        assert DeltaRun(old(database.State()), cfg, std, oce, db, crawled, work, database.State());
        return if finished then Finished else Stopped;
    }
  }

  /** Only active folders are ever marked. */
  lemma {:induction false} DirtyParentsAreActive(cfg: Config, crawled: CrawlIndex, db: FileIndex, std: seq<LogRow>,
                                                 oce: seq<LogRow>)
    ensures forall m :: m in Detect(cfg, crawled, db, std, oce) ==> m.parent in cfg.active
  {
    forall m | m in Detect(cfg, crawled, db, std, oce) ensures m.parent in cfg.active {
      if m in Scan(db, SortNewestFirst(Records(Standard, cfg.active, std)), 0) {
        MarkedFromRecords(Standard, cfg, db, std, m);
      } else if m in Scan(db, SortNewestFirst(Records(Evolution, cfg.active, oce)), 0) {
        MarkedFromRecords(Evolution, cfg, db, oce, m);
      }
    }
  }

  lemma {:induction false} MarkedFromRecords(log: Log, cfg: Config, db: FileIndex, rows: seq<LogRow>, m: Mark)
    requires m in Scan(db, SortNewestFirst(Records(log, cfg.active, rows)), 0)
    ensures m.parent in cfg.active
    ensures exists r :: r in Records(log, cfg.active, rows) && MarkOf(r) == m
  {
    var records := SortNewestFirst(Records(log, cfg.active, rows));
    ScanExact(db, records, m);
    var i :| 0 <= i < |records| && MarkOf(records[i]) == m;
    assert MarkOf(records[i]) == Mark(records[i].folder, ResolveExactFolder(records[i].folder, records[i].fileName));
    SortKeepsMembers(Records(log, cfg.active, rows), records[i]);
    RecordsExact(log, cfg.active, rows, records[i]);
    var row :| row in rows && RecordOf(log, cfg.active, row) == Some(records[i]);
    if log == Standard {
      FirstMatchIsActive(cfg.active, row.fileName.value);
    }
  }
}
