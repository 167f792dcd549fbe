/** What interrupted and failing delta runs leave behind, over whole sequences of runs. */
module DeltaRecovery {
  import opened Prelude
  import opened Text
  import opened Catalog
  import opened DeltaScan
  import opened DeltaRefresh

  /** The crawl time of a folder; absent rows count as never crawled. */
  function CrawledAt(t: Tables, key: FolderKey): Option<int> {
    if key in t.folders then t.folders[key].crawledAt else None
  }

  /** The folder row is there and its leaves are crawled. */
  predicate Starts(w: ParentWork) {
    w.init == Ensured(Returns)
  }

  predicate LeavesInterrupt(w: ParentWork) {
    exists l :: l in w.leaves && LeafInterrupts(l)
  }

  /** The work gets to the checkpoint, and it commits. */
  predicate Checkpoints(w: ParentWork) {
    Starts(w) && !LeavesInterrupt(w) && w.checkpoint.Saved?
  }

  /** The user's interrupt arrives somewhere in this parent's work, before or after a step's effect. */
  predicate Interrupts(w: ParentWork) {
    || w.init == StepInterrupted || w.init == Ensured(Interrupted)
    || (Starts(w) && (LeavesInterrupt(w) || w.checkpoint.CheckpointInterrupted?
                      || (w.checkpoint.Saved? && w.checkpoint.ending == Interrupted)))
  }

  /** The folder row exists, every leaf succeeds and the checkpoint commits, whatever comes after the commit. */
  predicate Completes(w: ParentWork) {
    Starts(w) && w.checkpoint.Saved? && forall l :: l in w.leaves ==> LeafSucceeds(l)
  }

  /** The run gets as far as position `i`. */
  predicate Reached(work: seq<ParentWork>, i: nat)
    requires i <= |work|
  {
    forall j :: 0 <= j < i ==> !Interrupts(work[j])
  }

  predicate CompletedIn(work: seq<ParentWork>, f: string) {
    exists i :: 0 <= i < |work| && work[i].folder == f && Completes(work[i]) && Reached(work, i)
  }

  lemma {:induction false} LeavesOutcome(t: Tables, id: nat, leaves: seq<LeafWork>)
    ensures ApplyLeaves(t, id, leaves).interrupted <==> exists l :: l in leaves && LeafInterrupts(l)
    ensures ApplyLeaves(t, id, leaves).allSucceeded <==> forall l :: l in leaves ==> LeafSucceeds(l)
    decreases |leaves|
  {
    if leaves != [] {
      assert leaves == [leaves[0]] + leaves[1..];
      LeavesOutcome(AfterLeaf(t, id, leaves[0]), id, leaves[1..]);
    }
  }

  lemma {:induction false} ParentKeyInjective(cfg: Config, f: string, g: string)
    ensures ParentKey(cfg, f) == ParentKey(cfg, g) <==> f == g
  {
    var p, q := "/TP_export/" + f + "/", "/TP_export/" + g + "/";
    assert p[11..|p| - 1] == f && q[11..|q| - 1] == g;
  }

  /** One parent's work stamps that parent alone, and only by completing. */
  lemma {:induction false} ParentStamps(t: Tables, cfg: Config, w: ParentWork, f: string)
    requires w.folder in cfg.domainOf
    ensures ApplyParent(t, cfg, w).interrupted <==> Interrupts(w)
    ensures CrawledAt(ApplyParent(t, cfg, w).tables, ParentKey(cfg, f)) ==
            if f == w.folder && Completes(w) then Some(w.checkpoint.now) else CrawledAt(t, ParentKey(cfg, f))
  {
    ParentKeyInjective(cfg, f, w.folder);
    if Starts(w) {
      var key := ParentKey(cfg, w.folder);
      var t1 := EnsureFolder(t, key, cfg.domainOf[w.folder]);
      LeavesKeepFolders(t1, t1.folders[key].id, w.leaves);
      LeavesOutcome(t1, t1.folders[key].id, w.leaves);
    }
  }

  /** A run changes a folder's crawl time exactly when it reaches that folder and completes it. */
  lemma {:induction false} StampedExactlyWhenCompleted(t: Tables, cfg: Config, work: seq<ParentWork>, f: string)
    requires Assigned(cfg, work)
    ensures var after := CrawledAt(ApplyWork(t, cfg, work).tables, ParentKey(cfg, f));
            if CompletedIn(work, f) then after.Some? else after == CrawledAt(t, ParentKey(cfg, f))
    decreases |work|
  {
    if work != [] {
      var rest := work[1..];
      ParentStamps(t, cfg, work[0], f);
      if Interrupts(work[0]) {
        assert forall i :: 0 < i < |work| ==> !Reached(work, i);
      } else {
        StampedExactlyWhenCompleted(ApplyParent(t, cfg, work[0]).tables, cfg, rest, f);
        forall i | 0 < i < |work| ensures Reached(work, i) <==> Reached(rest, i - 1) {
          assert forall j :: 0 <= j < i - 1 ==> rest[j] == work[j + 1];
          assert forall j :: 0 < j < i ==> work[j] == rest[j - 1];
        }
        if CompletedIn(rest, f) {
          var i :| 0 <= i < |rest| && rest[i].folder == f && Completes(rest[i]) && Reached(rest, i);
          assert work[i + 1] == rest[i] && Reached(work, i + 1);
        }
        if i :| 0 < i < |work| && work[i].folder == f && Completes(work[i]) && Reached(work, i) {
          assert rest[i - 1] == work[i] && Reached(rest, i - 1);
        }
      }
    }
  }

  /** The user's interrupt arrives while this parent is worked on: around its folder row, one of its leaves, or its
      checkpoint. */
  predicate InterruptedDuring(w: ParentWork) {
    || w.init == StepInterrupted || w.init == Ensured(Interrupted)
    || (&& w.init == Ensured(Returns)
        && (|| (exists i :: 0 <= i < |w.leaves| && InterruptedLeaf(w.leaves[i]))
            || w.checkpoint == CheckpointInterrupted
            || (w.checkpoint.Saved? && w.checkpoint.ending == Interrupted)))
  }

  predicate InterruptedLeaf(l: LeafWork) {
    match l.outcome
    case LeafInterrupted => true
    case Crawled(_, ending) => ending == Interrupted
    case LeafFailed => false
  }

  lemma {:induction false} InterruptedExactly(w: ParentWork)
    ensures InterruptedDuring(w) <==> Interrupts(w)
  {
    if l :| l in w.leaves && LeafInterrupts(l) {
      var i :| 0 <= i < |w.leaves| && w.leaves[i] == l;
      assert InterruptedLeaf(w.leaves[i]);
    }
    if i :| 0 <= i < |w.leaves| && InterruptedLeaf(w.leaves[i]) {
      assert w.leaves[i] in w.leaves && LeafInterrupts(w.leaves[i]);
    }
  }

  lemma {:induction false} LeafInterruptEnds(t: Tables, id: nat, leaves: seq<LeafWork>, i: nat)
    requires i < |leaves| && InterruptedLeaf(leaves[i])
    ensures ApplyLeaves(t, id, leaves) == ApplyLeaves(t, id, leaves[..i + 1])
    decreases i
  {
    assert leaves[..i + 1][0] == leaves[0];
    if i > 0 && !LeafInterrupts(leaves[0]) {
      assert leaves[..i + 1][1..] == leaves[1..][..i];
      LeafInterruptEnds(AfterLeaf(t, id, leaves[0]), id, leaves[1..], i - 1);
    }
  }

  /** An interrupt ends the run: what comes after it does not happen. Failures do not: a run without interrupts goes
      through all of its work. */
  lemma {:induction false} InterruptEndsRun(t: Tables, cfg: Config, work: seq<ParentWork>)
    requires Assigned(cfg, work)
    ensures forall i :: 0 <= i < |work| && InterruptedDuring(work[i]) ==>
              Assigned(cfg, work[..i + 1]) && ApplyWork(t, cfg, work) == ApplyWork(t, cfg, work[..i + 1])
    ensures ApplyWork(t, cfg, work).interrupted <==> exists i :: 0 <= i < |work| && InterruptedDuring(work[i])
    decreases |work|
  {
    if work != [] {
      var w, rest := work[0], work[1..];
      ParentStamps(t, cfg, w, w.folder);
      InterruptedExactly(w);
      InterruptEndsRun(ApplyParent(t, cfg, w).tables, cfg, rest);
      forall i | 0 <= i < |work| && InterruptedDuring(work[i])
        ensures Assigned(cfg, work[..i + 1]) && ApplyWork(t, cfg, work) == ApplyWork(t, cfg, work[..i + 1])
      {
        assert forall v :: v in work[..i + 1] ==> v in work;
        assert i > 0 ==> work[..i + 1][1..] == rest[..i] && rest[i - 1] == work[i];
        assert i == 0 ==> work[..1][1..] == [];
      }
      assert forall i :: 0 < i < |work| ==> work[i] == rest[i - 1];
      if i :| 0 <= i < |rest| && InterruptedDuring(rest[i]) {
        assert work[i + 1] == rest[i];
      }
    }
  }

  // ---- A leaf's rows appear all or none -------------------------------------------------------

  predicate SameRow(t: Tables, t': Tables, f: string) {
    (f in t.files <==> f in t'.files) && (f in t.files ==> t'.files[f] == t.files[f])
  }

  predicate Lists(l: LeafWork, f: string) {
    l.outcome.Crawled? && f in Ids(l.outcome.files)
  }

  lemma {:induction false} UpsertRow(t: Tables, id: nat, files: seq<Listed>, f: string)
    requires DistinctIds(files)
    ensures var t' := UpsertLeaf(t, id, files).value;
            if f in Rows(files) then f in t'.files && t'.files[f] == FileRow(id, Rows(files)[f]) else SameRow(t, t', f)
  {
    RowsLookup(files);
  }

  lemma {:induction false} LeavesMiss(t: Tables, id: nat, leaves: seq<LeafWork>, f: string)
    requires forall l :: l in leaves ==> !Lists(l, f)
    ensures SameRow(t, ApplyLeaves(t, id, leaves).tables, f)
    decreases |leaves|
  {
    if leaves != [] {
      assert leaves[0] in leaves && forall l :: l in leaves[1..] ==> l in leaves;
      if leaves[0].outcome.Crawled? && DistinctIds(leaves[0].outcome.files) {
        UpsertRow(t, id, leaves[0].outcome.files, f);
        RowsLookup(leaves[0].outcome.files);
      }
      LeavesMiss(AfterLeaf(t, id, leaves[0]), id, leaves[1..], f);
    }
  }

  /** The leaf is crawled before any interrupt, and its records are accepted. */
  predicate Stores(leaves: seq<LeafWork>, i: nat)
    requires i < |leaves|
  {
    && leaves[i].outcome.Crawled? && DistinctIds(leaves[i].outcome.files)
    && forall j :: 0 <= j < i ==> !LeafInterrupts(leaves[j])
  }

  lemma {:induction false} StoresLater(leaves: seq<LeafWork>, i: nat)
    requires 0 < i < |leaves|
    ensures Stores(leaves, i) <==> !LeafInterrupts(leaves[0]) && Stores(leaves[1..], i - 1)
  {
    var rest := leaves[1..];
    assert forall j :: 0 <= j < i - 1 ==> rest[j] == leaves[j + 1];
    assert forall j :: 0 < j < i ==> leaves[j] == rest[j - 1];
  }

  lemma {:induction false} FirstLeafRow(t: Tables, id: nat, l: LeafWork, f: string)
    ensures Lists(l, f) ==> f in Rows(l.outcome.files)
    ensures if Lists(l, f) && DistinctIds(l.outcome.files)
            then f in AfterLeaf(t, id, l).files && AfterLeaf(t, id, l).files[f] == FileRow(id, Rows(l.outcome.files)[f])
            else SameRow(t, AfterLeaf(t, id, l), f)
  {
    if l.outcome.Crawled? {
      RowsLookup(l.outcome.files);
      if DistinctIds(l.outcome.files) {
        UpsertRow(t, id, l.outcome.files, f);
      }
    }
  }

  lemma {:induction false} FirstLeafAllOrNone(t: Tables, id: nat, leaves: seq<LeafWork>, x: Listed)
    requires leaves != [] && leaves[0].outcome.Crawled? && x in leaves[0].outcome.files
    requires forall l :: l in leaves[1..] ==> !Lists(l, x.fileId)
    ensures var t' := ApplyLeaves(t, id, leaves).tables;
            if Stores(leaves, 0) then x.fileId in t'.files && t'.files[x.fileId] == FileRow(id, x.data)
            else SameRow(t, t', x.fileId)
  {
    var t1 := AfterLeaf(t, id, leaves[0]);
    FirstLeafRow(t, id, leaves[0], x.fileId);
    RowsLookup(leaves[0].outcome.files);
    LeavesMiss(t1, id, leaves[1..], x.fileId);
  }

  /** A crawled leaf's records are all stored, or none of their rows is touched, whatever happens to the other
      leaves. */
  lemma {:induction false} LeafAllOrNone(t: Tables, id: nat, leaves: seq<LeafWork>, i: nat, x: Listed)
    requires i < |leaves| && leaves[i].outcome.Crawled? && x in leaves[i].outcome.files
    requires forall j :: 0 <= j < |leaves| && j != i ==> !Lists(leaves[j], x.fileId)
    ensures var t' := ApplyLeaves(t, id, leaves).tables;
            if Stores(leaves, i) then x.fileId in t'.files && t'.files[x.fileId] == FileRow(id, x.data)
            else SameRow(t, t', x.fileId)
    decreases |leaves|
  {
    var rest := leaves[1..];
    assert forall j :: 0 <= j < |rest| ==> rest[j] == leaves[j + 1];
    if i == 0 {
      FirstLeafAllOrNone(t, id, leaves, x);
    } else {
      StoresLater(leaves, i);
      FirstLeafRow(t, id, leaves[0], x.fileId);
      if !LeafInterrupts(leaves[0]) {
        LeafAllOrNone(AfterLeaf(t, id, leaves[0]), id, rest, i - 1, x);
      }
    }
  }

  lemma {:induction false} ParentMisses(t: Tables, cfg: Config, w: ParentWork, f: string)
    requires w.folder in cfg.domainOf && forall l :: l in w.leaves ==> !Lists(l, f)
    ensures SameRow(t, ApplyParent(t, cfg, w).tables, f)
  {
    if Starts(w) {
      var key := ParentKey(cfg, w.folder);
      var t1 := EnsureFolder(t, key, cfg.domainOf[w.folder]);
      LeavesMiss(t1, t1.folders[key].id, w.leaves, f);
    }
  }

  lemma {:induction false} ParentKeepsIds(t: Tables, cfg: Config, w: ParentWork)
    requires w.folder in cfg.domainOf
    ensures forall k :: k in t.folders ==>
              k in ApplyParent(t, cfg, w).tables.folders &&
              ApplyParent(t, cfg, w).tables.folders[k].id == t.folders[k].id
    ensures Starts(w) ==> ParentKey(cfg, w.folder) in ApplyParent(t, cfg, w).tables.folders
  {
    if Starts(w) {
      var key := ParentKey(cfg, w.folder);
      var t1 := EnsureFolder(t, key, cfg.domainOf[w.folder]);
      LeavesKeepFolders(t1, t1.folders[key].id, w.leaves);
    }
  }

  lemma {:induction false} WorkKeepsIds(t: Tables, cfg: Config, work: seq<ParentWork>)
    requires Assigned(cfg, work)
    ensures forall k :: k in t.folders ==>
              k in ApplyWork(t, cfg, work).tables.folders &&
              ApplyWork(t, cfg, work).tables.folders[k].id == t.folders[k].id
    decreases |work|
  {
    if work != [] {
      ParentKeepsIds(t, cfg, work[0]);
      if !ApplyParent(t, cfg, work[0]).interrupted {
        WorkKeepsIds(ApplyParent(t, cfg, work[0]).tables, cfg, work[1..]);
      }
    }
  }

  lemma {:induction false} WorkMisses(t: Tables, cfg: Config, work: seq<ParentWork>, f: string)
    requires Assigned(cfg, work) && forall w, l :: w in work && l in w.leaves ==> !Lists(l, f)
    ensures SameRow(t, ApplyWork(t, cfg, work).tables, f)
    decreases |work|
  {
    if work != [] {
      assert work[0] in work && forall w :: w in work[1..] ==> w in work;
      ParentMisses(t, cfg, work[0], f);
      if !ApplyParent(t, cfg, work[0]).interrupted {
        WorkMisses(ApplyParent(t, cfg, work[0]).tables, cfg, work[1..], f);
      }
    }
  }

  /** The record's row sits under the folder as crawled. */
  predicate HasRow(t: Tables, key: FolderKey, x: Listed) {
    key in t.folders && x.fileId in t.files && t.files[x.fileId] == FileRow(t.folders[key].id, x.data)
  }

  /** The run gets to leaf `j` of its parent `i` and the database accepts its records. */
  predicate StoredIn(work: seq<ParentWork>, i: nat, j: nat)
    requires i < |work| && j < |work[i].leaves|
  {
    Reached(work, i) && Starts(work[i]) && Stores(work[i].leaves, j)
  }

  /** Only leaf `j` of parent `i` lists the identifier. */
  predicate OnlyListedBy(work: seq<ParentWork>, i: nat, j: nat, f: string) {
    forall m, n :: 0 <= m < |work| && 0 <= n < |work[m].leaves| && (m != i || n != j) ==> !Lists(work[m].leaves[n], f)
  }

  lemma {:induction false} ParentAllOrNone(t: Tables, cfg: Config, w: ParentWork, j: nat, x: Listed)
    requires w.folder in cfg.domainOf && j < |w.leaves| && w.leaves[j].outcome.Crawled? &&
             x in w.leaves[j].outcome.files
    requires forall n :: 0 <= n < |w.leaves| && n != j ==> !Lists(w.leaves[n], x.fileId)
    ensures var t' := ApplyParent(t, cfg, w).tables;
            if Starts(w) && Stores(w.leaves, j) then HasRow(t', ParentKey(cfg, w.folder), x)
            else SameRow(t, t', x.fileId)
  {
    if Starts(w) {
      var key := ParentKey(cfg, w.folder);
      var t1 := EnsureFolder(t, key, cfg.domainOf[w.folder]);
      LeavesKeepFolders(t1, t1.folders[key].id, w.leaves);
      LeafAllOrNone(t1, t1.folders[key].id, w.leaves, j, x);
    }
  }

  lemma {:induction false} LaterParentsMiss(t: Tables, cfg: Config, work: seq<ParentWork>, j: nat, f: string)
    requires Assigned(cfg, work) && work != [] && OnlyListedBy(work, 0, j, f)
    ensures Assigned(cfg, work[1..])
    ensures SameRow(t, ApplyWork(t, cfg, work[1..]).tables, f)
  {
    var rest := work[1..];
    forall v, l | v in rest && l in v.leaves ensures !Lists(l, f) {
      var m :| 0 <= m < |rest| && rest[m] == v;
      var n :| 0 <= n < |v.leaves| && v.leaves[n] == l;
      assert !Lists(work[m + 1].leaves[n], f);
    }
    WorkMisses(t, cfg, rest, f);
  }

  lemma {:induction false} FirstParentAllOrNone(t: Tables, cfg: Config, work: seq<ParentWork>, j: nat, x: Listed)
    requires Assigned(cfg, work) && work != [] && j < |work[0].leaves|
    requires work[0].leaves[j].outcome.Crawled? && x in work[0].leaves[j].outcome.files &&
             OnlyListedBy(work, 0, j, x.fileId)
    ensures work[0] in work
    ensures var t' := ApplyWork(t, cfg, work).tables;
            if StoredIn(work, 0, j) then HasRow(t', ParentKey(cfg, work[0].folder), x) else SameRow(t, t', x.fileId)
  {
    var w := work[0];
    var t1 := ApplyParent(t, cfg, w).tables;
    forall n | 0 <= n < |w.leaves| && n != j ensures !Lists(w.leaves[n], x.fileId) {
      assert !Lists(work[0].leaves[n], x.fileId);
    }
    ParentAllOrNone(t, cfg, w, j, x);
    if !ApplyParent(t, cfg, w).interrupted {
      LaterParentsMiss(t1, cfg, work, j, x.fileId);
      WorkKeepsIds(t1, cfg, work[1..]);
    }
  }

  lemma {:induction false} OnlyListedLater(work: seq<ParentWork>, i: nat, j: nat, f: string)
    requires OnlyListedBy(work, i, j, f) && 0 < i < |work|
    ensures OnlyListedBy(work[1..], i - 1, j, f) && forall l :: l in work[0].leaves ==> !Lists(l, f)
  {
    var rest := work[1..];
    forall m, n | 0 <= m < |rest| && 0 <= n < |rest[m].leaves| && (m != i - 1 || n != j)
      ensures !Lists(rest[m].leaves[n], f)
    {
      assert !Lists(work[m + 1].leaves[n], f);
    }
    forall l | l in work[0].leaves ensures !Lists(l, f) {
      var n :| 0 <= n < |work[0].leaves| && work[0].leaves[n] == l;
      assert !Lists(work[0].leaves[n], f);
    }
  }

  lemma {:induction false} ReachedLater(work: seq<ParentWork>, i: nat)
    requires 0 < i <= |work|
    ensures Reached(work, i) <==> !Interrupts(work[0]) && Reached(work[1..], i - 1)
  {
    var rest := work[1..];
    assert forall j :: 0 <= j < i - 1 ==> rest[j] == work[j + 1];
    assert forall j :: 0 < j < i ==> work[j] == rest[j - 1];
  }

  /** Over a whole run: all records of a crawled leaf are stored under its parent, or none of their rows is touched. */
  lemma {:induction false} RunAllOrNone(t: Tables, cfg: Config, work: seq<ParentWork>, i: nat, j: nat, x: Listed)
    requires Assigned(cfg, work) && i < |work| && j < |work[i].leaves|
    requires work[i].leaves[j].outcome.Crawled? && x in work[i].leaves[j].outcome.files &&
             OnlyListedBy(work, i, j, x.fileId)
    ensures work[i] in work
    ensures var t' := ApplyWork(t, cfg, work).tables;
            if StoredIn(work, i, j) then HasRow(t', ParentKey(cfg, work[i].folder), x) else SameRow(t, t', x.fileId)
    decreases |work|
  {
    if i == 0 {
      FirstParentAllOrNone(t, cfg, work, j, x);
    } else {
      var w := work[0];
      OnlyListedLater(work, i, j, x.fileId);
      ParentMisses(t, cfg, w, x.fileId);
      ParentStamps(t, cfg, w, w.folder);
      ReachedLater(work, i);
      if !Interrupts(w) {
        RunAllOrNone(ApplyParent(t, cfg, w).tables, cfg, work[1..], i - 1, j, x);
      }
    }
  }

  // ---- Detection of never-crawled folders -----------------------------------------------------

  lemma {:induction false} LastSegmentOfKey(env: string, f: string)
    requires IsSegment(f)
    ensures LastSegment(KeyOf(env, f).path) == f
  {
    var inner := "TP_export/" + f;
    var path := KeyOf(env, f).path;
    assert path == "/" + inner + "/";
    assert path[1..] == inner + "/";
    assert (inner + "/")[..|inner|] == inner;
    assert inner[|inner| - 1] == f[|f| - 1];
    assert StripRight(inner + "/", '/') == StripRight(inner, '/') == inner;
    assert StripLeft(path, '/') == StripLeft(inner + "/", '/') == inner + "/";
    assert Strip(path, '/') == inner;
    assert inner == "TP_export" + ['/'] + f;
    SplitConcat("TP_export", '/', f);
    SplitWithoutSeparator(f, '/');
  }

  /** No other folder row of the environment ends in this folder's name. */
  ghost predicate SegmentApart(t: Tables, env: string, f: string) {
    forall k :: k in t.folders && k.env == Lower(env) && LastSegment(k.path) == f ==> k == KeyOf(env, f)
  }

  lemma {:induction false} NeverCrawledExactly(t: Tables, cfg: Config, crawled: CrawlIndex, f: string)
    requires IsSegment(f) && SegmentApart(t, cfg.env, f) && CrawlIndexOf(crawled, t, cfg)
    ensures NeverCrawled(crawled, f) <==> CrawledAt(t, ParentKey(cfg, f)).None?
  {
    LastSegmentOfKey(cfg.env, f);
    if f in crawled {
      var k :| k in t.folders && k.env == Lower(cfg.env) && LastSegment(k.path) == f &&
               t.folders[k].crawledAt == crawled[f];
      assert k == ParentKey(cfg, f);
    }
  }

  /** A folder that a full crawl has saved, for the first time or again, does not count as never crawled in any index
      the next delta run may read. */
  lemma {:induction false} FullCrawlIsSeen(t: Tables, cfg: Config, f: string, domain: string, meta: FolderMeta,
                                           files: seq<Listed>, now: int, crawled: CrawlIndex)
    requires TablesOk(t) && IsSegment(f) && SegmentApart(t, cfg.env, f)
    requires SaveFolder(t, ParentKey(cfg, f), domain, meta, files, now).Some?
    requires CrawlIndexOf(crawled, SaveFolder(t, ParentKey(cfg, f), domain, meta, files, now).value, cfg)
    ensures !NeverCrawled(crawled, f)
  {
    SaveFolderStamps(t, ParentKey(cfg, f), domain, meta, files, now);
    NeverCrawledExactly(SaveFolder(t, ParentKey(cfg, f), domain, meta, files, now).value, cfg, crawled, f);
  }

  lemma {:induction false} ParentAddsItsOwn(t: Tables, cfg: Config, w: ParentWork)
    requires w.folder in cfg.domainOf
    ensures ApplyParent(t, cfg, w).tables.folders.Keys <= t.folders.Keys + {ParentKey(cfg, w.folder)}
  {
    if Starts(w) {
      var key := ParentKey(cfg, w.folder);
      var t1 := EnsureFolder(t, key, cfg.domainOf[w.folder]);
      LeavesKeepFolders(t1, t1.folders[key].id, w.leaves);
    }
  }

  /** A run adds folder rows only for its own parents. */
  lemma {:induction false} RunKeepsSegmentApart(t: Tables, cfg: Config, work: seq<ParentWork>, f: string)
    requires SegmentApart(t, cfg.env, f) && Assigned(cfg, work) && forall w :: w in work ==> IsSegment(w.folder)
    ensures SegmentApart(ApplyWork(t, cfg, work).tables, cfg.env, f)
    decreases |work|
  {
    if work != [] {
      var w := work[0];
      assert w in work && forall v :: v in work[1..] ==> v in work;
      ParentAddsItsOwn(t, cfg, w);
      LastSegmentOfKey(cfg.env, w.folder);
      if !ApplyParent(t, cfg, w).interrupted {
        RunKeepsSegmentApart(ApplyParent(t, cfg, w).tables, cfg, work[1..], f);
      }
    }
  }

  /** A run under its own configuration, over whatever logs it downloaded. */
  datatype Run = Run(cfg: Config, std: seq<LogRow>, oce: seq<LogRow>, db: FileIndex, crawled: CrawlIndex,
                     work: seq<ParentWork>)

  function DirtyOf(r: Run): set<Mark> {
    Detect(r.cfg, r.crawled, r.db, r.std, r.oce)
  }

  /** The run takes the tables from one state to the other. */
  ghost predicate Runs(env: string, t: Tables, r: Run, t': Tables) {
    && r.cfg.env == env && ConfigOk(r.cfg)
    && DeltaRun(t, r.cfg, r.std, r.oce, r.db, r.crawled, r.work, t')
  }

  /** A sequence of runs of one environment, each cut off or failing anywhere. */
  ghost predicate RunsInTurn(env: string, ts: seq<Tables>, rs: seq<Run>) {
    |ts| == |rs| + 1 && forall i :: 0 <= i < |rs| ==> Runs(env, ts[i], rs[i], ts[i + 1])
  }

  lemma {:induction false} WorkIsActive(env: string, t: Tables, r: Run, t': Tables)
    requires Runs(env, t, r, t')
    ensures forall w :: w in r.work ==> w.folder in r.cfg.active && IsSegment(w.folder)
  {
    DirtyParentsAreActive(r.cfg, r.crawled, r.db, r.std, r.oce);
    forall w | w in r.work ensures w.folder in r.cfg.active {
      assert w.leaves[0] in w.leaves;
      assert Mark(w.folder, w.leaves[0].leaf) in DirtyOf(r);
    }
  }

  /** Until some run completes it, a folder never crawled is dirty in, and visited by, every run that has it active,
      wherever the log scans stop. */
  lemma {:induction false} NeverCrawledStaysDirty(env: string, ts: seq<Tables>, rs: seq<Run>, f: string, n: nat)
    requires RunsInTurn(env, ts, rs) && n < |rs| && f in rs[n].cfg.active
    requires SegmentApart(ts[0], env, f) && CrawledAt(ts[0], KeyOf(env, f)).None?
    requires forall i :: 0 <= i < n ==> !CompletedIn(rs[i].work, f)
    ensures Mark(f, f) in DirtyOf(rs[n])
    ensures exists w :: w in rs[n].work && w.folder == f && f in Leaves(w)
  {
    NeverCrawledUntil(env, ts, rs, f, n);
    var r := rs[n];
    assert Runs(env, ts[n], r, ts[n + 1]);
    NeverCrawledExactly(ts[n], r.cfg, r.crawled, f);
    assert Mark(f, f) in DirtyOf(r);
    var w :| w in r.work && w.folder == f;
    assert f in Leaves(w);
  }

  lemma {:induction false} TurnRuns(env: string, ts: seq<Tables>, rs: seq<Run>, n: nat)
    requires RunsInTurn(env, ts, rs) && n < |rs|
    ensures Runs(env, ts[n], rs[n], ts[n + 1])
  {
  }

  ghost predicate StillNeverCrawled(env: string, t: Tables, f: string) {
    SegmentApart(t, env, f) && CrawledAt(t, KeyOf(env, f)).None?
  }

  lemma {:induction false} NeverCrawledChain(env: string, ts: seq<Tables>, f: string, n: nat)
    requires n < |ts| && StillNeverCrawled(env, ts[0], f)
    requires forall i :: 0 <= i < n && StillNeverCrawled(env, ts[i], f) ==> StillNeverCrawled(env, ts[i + 1], f)
    ensures StillNeverCrawled(env, ts[n], f)
  {
    if n > 0 {
      NeverCrawledChain(env, ts, f, n - 1);
    }
  }

  lemma {:induction false} NeverCrawledUntil(env: string, ts: seq<Tables>, rs: seq<Run>, f: string, n: nat)
    requires RunsInTurn(env, ts, rs) && n <= |rs| && StillNeverCrawled(env, ts[0], f)
    requires forall i :: 0 <= i < n ==> !CompletedIn(rs[i].work, f)
    ensures StillNeverCrawled(env, ts[n], f)
  {
    forall i | 0 <= i < n && StillNeverCrawled(env, ts[i], f) ensures StillNeverCrawled(env, ts[i + 1], f) {
      TurnRuns(env, ts, rs, i);
      UncompletedStep(env, ts[i], rs[i], ts[i + 1], f);
    }
    NeverCrawledChain(env, ts, f, n);
  }

  lemma {:induction false} UncompletedStep(env: string, t: Tables, r: Run, t': Tables, f: string)
    requires Runs(env, t, r, t') && SegmentApart(t, env, f) && !CompletedIn(r.work, f)
    ensures SegmentApart(t', env, f) && CrawledAt(t', KeyOf(env, f)) == CrawledAt(t, KeyOf(env, f))
  {
    WorkIsActive(env, t, r, t');
    RunKeepsSegmentApart(t, r.cfg, r.work, f);
    StampedExactlyWhenCompleted(t, r.cfg, r.work, f);
  }

  // ---- A folder crawled before --------------------------------------------------------------

  predicate Flat(f: string) { !Contains(f, EVOLUTION) }

  /** A log scan reaches a dirty record of `f`. */
  ghost predicate ScanFinds(cfg: Config, db: FileIndex, log: Log, rows: seq<LogRow>, f: string) {
    var records := SortNewestFirst(Records(log, cfg.active, rows));
    exists i :: 0 <= i < |records| && records[i].folder == f && Dirty(db, records[i]) && !TripleBefore(db, records, i)
  }

  lemma {:induction false} ScanFindsExactly(cfg: Config, db: FileIndex, log: Log, rows: seq<LogRow>, f: string)
    requires Flat(f)
    ensures Mark(f, f) in Scan(db, SortNewestFirst(Records(log, cfg.active, rows)), 0) <==>
            ScanFinds(cfg, db, log, rows, f)
  {
    var records := SortNewestFirst(Records(log, cfg.active, rows));
    ScanExact(db, records, Mark(f, f));
    assert forall r: Record :: MarkOf(r) == Mark(r.folder, ResolveExactFolder(r.folder, r.fileName));
  }

  /** A flat folder is dirty in a run exactly when it was never crawled or a scan finds a dirty record of it before
      three clean ones in a row. */
  lemma {:induction false} FlatFolderIsDirtyExactly(env: string, t: Tables, r: Run, t': Tables, f: string)
    requires Runs(env, t, r, t') && SegmentApart(t, env, f) && f in r.cfg.active && Flat(f)
    ensures Mark(f, f) in DirtyOf(r) <==>
            || CrawledAt(t, KeyOf(env, f)).None?
            || ScanFinds(r.cfg, r.db, Standard, r.std, f)
            || ScanFinds(r.cfg, r.db, Evolution, r.oce, f)
  {
    NeverCrawledExactly(t, r.cfg, r.crawled, f);
    ScanFindsExactly(r.cfg, r.db, Standard, r.std, f);
    ScanFindsExactly(r.cfg, r.db, Evolution, r.oce, f);
  }

  /** When a run leaves a flat folder unfinished, a next run takes it up again exactly when it was never crawled or a
      scan finds a dirty record of it before three clean ones in a row. */
  lemma {:induction false} UnfinishedFolderRetriedExactly(env: string, t: Tables, r: Run, t': Tables, next: Run,
                                                          t'': Tables, f: string)
    requires Runs(env, t, r, t') && Runs(env, t', next, t'')
    requires SegmentApart(t, env, f) && f in next.cfg.active && Flat(f) && !CompletedIn(r.work, f)
    ensures Mark(f, f) in DirtyOf(next) <==>
            || CrawledAt(t, KeyOf(env, f)).None?
            || ScanFinds(next.cfg, next.db, Standard, next.std, f)
            || ScanFinds(next.cfg, next.db, Evolution, next.oce, f)
  {
    UncompletedStep(env, t, r, t', f);
    FlatFolderIsDirtyExactly(env, t', next, t'', f);
  }

  // ---- The catalogue's summaries after a delta run --------------------------------------------

  /** Every file row sits under the folder that `home` assigns to its identifier. */
  ghost predicate AtHome(t: Tables, home: string -> FolderKey) {
    forall f :: f in t.files ==> home(f) in t.folders && t.folders[home(f)].id == t.files[f].folderId
  }

  /** Crawling this parent lists only files that belong to it. */
  ghost predicate ListsOwnFiles(cfg: Config, w: ParentWork, home: string -> FolderKey) {
    forall l :: l in w.leaves && l.outcome.Crawled? ==> OwnIds(l.outcome.files, ParentKey(cfg, w.folder), home)
  }

  ghost predicate OwnIds(files: seq<Listed>, key: FolderKey, home: string -> FolderKey) {
    forall f :: f in Ids(files) ==> home(f) == key
  }

  /** The file rows kept under a folder. */
  function Stored(t: Tables, key: FolderKey): map<string, FileData> {
    if key in t.folders then FilesOf(t.files, t.folders[key].id) else map[]
  }

  lemma {:induction false} UpsertAtHome(t: Tables, key: FolderKey, files: seq<Listed>, home: string -> FolderKey)
    requires TablesOk(t) && AtHome(t, home) && key in t.folders && DistinctIds(files) && OwnIds(files, key, home)
    ensures TablesOk(UpsertLeaf(t, t.folders[key].id, files).value) &&
            AtHome(UpsertLeaf(t, t.folders[key].id, files).value, home)
  {
    UpsertKeepsTables(t, key, files);
    RowsLookup(files);
  }

  lemma {:induction false} StoredElsewhere(t: Tables, key: FolderKey, files: seq<Listed>, home: string -> FolderKey,
                                           k: FolderKey)
    requires TablesOk(t) && AtHome(t, home) && OwnIds(files, key, home) && k != key
    ensures Stored(t, k) - Ids(files) == Stored(t, k)
  {
    if k in t.folders {
      forall f | f in Stored(t, k) ensures f !in Ids(files) {
        assert t.folders[home(f)].id == t.folders[k].id;
      }
    }
  }

  lemma {:induction false} UpsertFrames(t: Tables, key: FolderKey, files: seq<Listed>, home: string -> FolderKey,
                                        k: FolderKey)
    requires TablesOk(t) && AtHome(t, home) && key in t.folders && DistinctIds(files) && OwnIds(files, key, home) &&
             k != key
    ensures Stored(UpsertLeaf(t, t.folders[key].id, files).value, k) == Stored(t, k)
  {
    if k in t.folders {
      RowsLookup(files);
      UpsertTakesRows(t, t.folders[key].id, files, t.folders[k].id);
      StoredElsewhere(t, key, files, home, k);
    }
  }

  lemma {:induction false} LeavesAtHome(t: Tables, key: FolderKey, leaves: seq<LeafWork>, home: string -> FolderKey,
                                        k: FolderKey)
    requires TablesOk(t) && AtHome(t, home) && key in t.folders
    requires forall l :: l in leaves && l.outcome.Crawled? ==> OwnIds(l.outcome.files, key, home)
    ensures var t' := ApplyLeaves(t, t.folders[key].id, leaves).tables;
            TablesOk(t') && AtHome(t', home) && (k != key ==> Stored(t', k) == Stored(t, k))
    decreases |leaves|
  {
    if leaves != [] {
      assert leaves[0] in leaves && forall l :: l in leaves[1..] ==> l in leaves;
      if leaves[0].outcome.Crawled? && DistinctIds(leaves[0].outcome.files) {
        var files := leaves[0].outcome.files;
        UpsertAtHome(t, key, files, home);
        if k != key {
          UpsertFrames(t, key, files, home, k);
        }
      }
      LeavesAtHome(AfterLeaf(t, t.folders[key].id, leaves[0]), key, leaves[1..], home, k);
    }
  }

  lemma {:induction false} EnsureAtHome(t: Tables, key: FolderKey, domain: string, home: string -> FolderKey,
                                        k: FolderKey)
    requires TablesOk(t) && AtHome(t, home)
    ensures TablesOk(EnsureFolder(t, key, domain)) && AtHome(EnsureFolder(t, key, domain), home)
    ensures Stored(EnsureFolder(t, key, domain), k) == Stored(t, k)
  {
    DeltaKeepsTables(t, key, domain);
    if key !in t.folders {
      forall f | f in t.files ensures t.files[f].folderId != t.nextId {
        assert t.folders[home(f)].id < t.nextId;
      }
    }
  }

  lemma {:induction false} SameIdsAtHome(t: Tables, t': Tables, home: string -> FolderKey, k: FolderKey)
    requires t'.files == t.files && t'.folders.Keys == t.folders.Keys
    requires forall j :: j in t.folders ==> t'.folders[j].id == t.folders[j].id
    ensures AtHome(t, home) ==> AtHome(t', home)
    ensures Stored(t', k) == Stored(t, k)
  {
  }

  lemma {:induction false} CheckpointAtHome(t: Tables, key: FolderKey, ok: bool, now: int, home: string -> FolderKey,
                                            k: FolderKey)
    requires TablesOk(t) && AtHome(t, home) && key in t.folders
    ensures TablesOk(Checkpoint(t, key, ok, now)) && AtHome(Checkpoint(t, key, ok, now), home)
    ensures AggregatesAgree(Checkpoint(t, key, ok, now), key)
    ensures Stored(Checkpoint(t, key, ok, now), k) == Stored(t, k)
  {
    CheckpointKeepsTables(t, key, ok, now);
    SameIdsAtHome(t, Checkpoint(t, key, ok, now), home, k);
  }

  /** The tables between a parent's leaves and its checkpoint. */
  lemma {:induction false} LeavesDone(t: Tables, cfg: Config, w: ParentWork, home: string -> FolderKey)
    requires TablesOk(t) && AtHome(t, home) && w.folder in cfg.domainOf && ListsOwnFiles(cfg, w, home)
    ensures
      var key, pass := ParentKey(cfg, w.folder), CrawlParent(t, cfg, w);
      && TablesOk(pass.tables) && AtHome(pass.tables, home) && key in pass.tables.folders
      && (pass.interrupted <==> LeavesInterrupt(w))
  {
    var key := ParentKey(cfg, w.folder);
    var t1 := EnsureFolder(t, key, cfg.domainOf[w.folder]);
    EnsureAtHome(t, key, cfg.domainOf[w.folder], home, key);
    LeavesAtHome(t1, key, w.leaves, home, key);
    LeavesOutcome(t1, t1.folders[key].id, w.leaves);
    LeavesKeepFolders(t1, t1.folders[key].id, w.leaves);
  }

  /** One parent's work keeps the tables well formed; a committed checkpoint makes its summary right. */
  lemma {:induction false} ParentAtHome(t: Tables, cfg: Config, w: ParentWork, home: string -> FolderKey)
    requires TablesOk(t) && AtHome(t, home) && w.folder in cfg.domainOf && ListsOwnFiles(cfg, w, home)
    ensures
      var t', key := ApplyParent(t, cfg, w).tables, ParentKey(cfg, w.folder);
      && TablesOk(t') && AtHome(t', home)
      && (Checkpoints(w) ==> key in t'.folders && AggregatesAgree(t', key))
  {
    var key := ParentKey(cfg, w.folder);
    if Starts(w) {
      var pass := CrawlParent(t, cfg, w);
      LeavesDone(t, cfg, w, home);
      if w.checkpoint.Saved? {
        CheckpointAtHome(pass.tables, key, pass.allSucceeded, w.checkpoint.now, home, key);
      }
    } else if w.init.Ensured? {
      EnsureAtHome(t, key, cfg.domainOf[w.folder], home, key);
    }
  }

  lemma {:induction false} EnsureFrames(t: Tables, key: FolderKey, domain: string, home: string -> FolderKey,
                                        k: FolderKey)
    requires TablesOk(t) && AtHome(t, home) && k != key
    ensures SameFolder(t, EnsureFolder(t, key, domain), k)
  {
    EnsureAtHome(t, key, domain, home, k);
  }

  lemma {:induction false} LeavesFrames(t: Tables, key: FolderKey, leaves: seq<LeafWork>, home: string -> FolderKey,
                                        k: FolderKey)
    requires TablesOk(t) && AtHome(t, home) && key in t.folders && k != key
    requires forall l :: l in leaves && l.outcome.Crawled? ==> OwnIds(l.outcome.files, key, home)
    ensures SameFolder(t, ApplyLeaves(t, t.folders[key].id, leaves).tables, k)
  {
    LeavesAtHome(t, key, leaves, home, k);
    LeavesKeepFolders(t, t.folders[key].id, leaves);
  }

  lemma {:induction false} CheckpointFrames(t: Tables, key: FolderKey, ok: bool, now: int, home: string -> FolderKey,
                                            k: FolderKey)
    requires TablesOk(t) && AtHome(t, home) && key in t.folders && k != key
    ensures SameFolder(t, Checkpoint(t, key, ok, now), k)
  {
    CheckpointAtHome(t, key, ok, now, home, k);
  }

  lemma {:induction false} SameFolderChain(t: Tables, t1: Tables, t2: Tables, k: FolderKey)
    requires SameFolder(t, t1, k) && SameFolder(t1, t2, k)
    ensures SameFolder(t, t2, k)
  {
  }

  lemma {:induction false} CrawlFrames(t: Tables, cfg: Config, w: ParentWork, home: string -> FolderKey, k: FolderKey)
    requires TablesOk(t) && AtHome(t, home) && w.folder in cfg.domainOf && ListsOwnFiles(cfg, w, home)
    requires k != ParentKey(cfg, w.folder)
    ensures SameFolder(t, CrawlParent(t, cfg, w).tables, k)
  {
    var key := ParentKey(cfg, w.folder);
    var t1 := EnsureFolder(t, key, cfg.domainOf[w.folder]);
    EnsureAtHome(t, key, cfg.domainOf[w.folder], home, k);
    EnsureFrames(t, key, cfg.domainOf[w.folder], home, k);
    LeavesFrames(t1, key, w.leaves, home, k);
    SameFolderChain(t, t1, CrawlParent(t, cfg, w).tables, k);
  }

  lemma {:induction false} CheckpointKeepsSame(t: Tables, t1: Tables, key: FolderKey, ok: bool, now: int,
                                               home: string -> FolderKey, k: FolderKey)
    requires TablesOk(t1) && AtHome(t1, home) && key in t1.folders && k != key && SameFolder(t, t1, k)
    ensures SameFolder(t, Checkpoint(t1, key, ok, now), k)
  {
    CheckpointFrames(t1, key, ok, now, home, k);
    SameFolderChain(t, t1, Checkpoint(t1, key, ok, now), k);
  }

  /** ... and touches no other folder. */
  lemma {:induction false} ParentFrames(t: Tables, cfg: Config, w: ParentWork, home: string -> FolderKey, k: FolderKey)
    requires TablesOk(t) && AtHome(t, home) && w.folder in cfg.domainOf && ListsOwnFiles(cfg, w, home)
    requires k != ParentKey(cfg, w.folder)
    ensures SameFolder(t, ApplyParent(t, cfg, w).tables, k)
  {
    var key := ParentKey(cfg, w.folder);
    if Starts(w) {
      var pass := CrawlParent(t, cfg, w);
      CrawlFrames(t, cfg, w, home, k);
      LeavesDone(t, cfg, w, home);
      if !pass.interrupted && w.checkpoint.Saved? {
        CheckpointKeepsSame(t, pass.tables, key, pass.allSucceeded, w.checkpoint.now, home, k);
        assert ApplyParent(t, cfg, w).tables == Checkpoint(pass.tables, key, pass.allSucceeded, w.checkpoint.now);
      } else {
        assert ApplyParent(t, cfg, w).tables == pass.tables;
      }
    } else if w.init.Ensured? {
      EnsureFrames(t, key, cfg.domainOf[w.folder], home, k);
    }
  }

  /** The folder's row and its file rows are the same in both. */
  ghost predicate SameFolder(t: Tables, t': Tables, k: FolderKey) {
    && (k in t'.folders <==> k in t.folders)
    && (k in t.folders ==> t'.folders[k] == t.folders[k])
    && Stored(t', k) == Stored(t, k)
  }

  /** The run reaches this folder and commits its checkpoint, whether or not its leaves all succeeded. */
  predicate CheckpointedIn(cfg: Config, work: seq<ParentWork>, k: FolderKey) {
    exists i :: 0 <= i < |work| && ParentKey(cfg, work[i].folder) == k && Checkpoints(work[i]) && Reached(work, i)
  }

  /** The checkpoint in question is the first parent's, who never comes again, or a later one's. */
  lemma {:induction false} CheckpointedNowOrLater(cfg: Config, work: seq<ParentWork>, k: FolderKey)
    requires CheckpointedIn(cfg, work, k)
    requires forall i, j :: 0 <= i < j < |work| ==> work[i].folder != work[j].folder
    ensures || (!Interrupts(work[0]) && CheckpointedIn(cfg, work[1..], k))
            || (&& ParentKey(cfg, work[0].folder) == k && Checkpoints(work[0])
                && forall v :: v in work[1..] ==> ParentKey(cfg, v.folder) != k)
  {
    var rest := work[1..];
    var i :| 0 <= i < |work| && ParentKey(cfg, work[i].folder) == k && Checkpoints(work[i]) && Reached(work, i);
    if i == 0 {
      forall v | v in rest ensures ParentKey(cfg, v.folder) != k {
        ParentKeyInjective(cfg, v.folder, work[0].folder);
      }
    } else {
      assert rest[i - 1] == work[i] && forall j :: 0 <= j < i - 1 ==> rest[j] == work[j + 1];
      assert Reached(rest, i - 1);
    }
  }

  /** A delta run, however it fails or stops, leaves right the summary of every folder it checkpoints and of every
      folder it does not work on whose summary was right. */
  lemma {:induction false} DeltaAggregates(t: Tables, cfg: Config, work: seq<ParentWork>, home: string -> FolderKey,
                                           k: FolderKey)
    requires TablesOk(t) && AtHome(t, home) && Assigned(cfg, work)
    requires forall w :: w in work ==> ListsOwnFiles(cfg, w, home)
    requires forall i, j :: 0 <= i < j < |work| ==> work[i].folder != work[j].folder
    requires || CheckpointedIn(cfg, work, k)
             || (k in t.folders && AggregatesAgree(t, k) && forall w :: w in work ==> ParentKey(cfg, w.folder) != k)
    ensures var t' := ApplyWork(t, cfg, work).tables;
            TablesOk(t') && AtHome(t', home) && k in t'.folders && AggregatesAgree(t', k)
    decreases |work|
  {
    if work != [] {
      var w, rest := work[0], work[1..];
      assert w in work && forall v :: v in rest ==> v in work;
      ParentAtHome(t, cfg, w, home);
      if k != ParentKey(cfg, w.folder) {
        ParentFrames(t, cfg, w, home, k);
      }
      ParentStamps(t, cfg, w, w.folder);
      var t1 := ApplyParent(t, cfg, w).tables;
      if CheckpointedIn(cfg, work, k) {
        CheckpointedNowOrLater(cfg, work, k);
      }
      if !Interrupts(w) {
        DeltaAggregates(t1, cfg, rest, home, k);
      }
    }
  }
}
