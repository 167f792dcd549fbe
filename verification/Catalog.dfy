/** The metadata catalog: folder rows whose counts and sizes summarise the file rows beneath them. */
module Catalog {
  import opened Prelude

  /** The columns of a file row other than its keys; `lastUpdated` is the instant its ISO text denotes, if it parses. */
  datatype FileData = FileData(name: string, originalBytes: int, compressedBytes: int, lastUpdated: Option<int>,
                               hash: string)
  datatype FileRow = FileRow(folderId: nat, data: FileData)

  /** The unique constraint of the folder table. */
  datatype FolderKey = FolderKey(env: string, path: string)
  datatype FolderRow = FolderRow(id: nat, domain: string, itemCount: int, originalBytes: int, compressedBytes: int,
                                 crawledAt: Option<int>)

  datatype Tables = Tables(folders: map<FolderKey, FolderRow>, files: map<string, FileRow>, nextId: nat)

  /** One record of a crawl. */
  datatype Listed = Listed(fileId: string, data: FileData)

  datatype Measure = Original | Compressed
  datatype FolderMeta = FolderMeta(itemCount: int, originalBytes: int, compressedBytes: int)

  function Bytes(d: FileData, m: Measure): int {
    if m == Original then d.originalBytes else d.compressedBytes
  }

  // ---- Totals over lists and over rows --------------------------------------------------------

  function ListTotal(files: seq<Listed>, m: Measure): int {
    if files == [] then 0 else Bytes(files[0].data, m) + ListTotal(files[1..], m)
  }

  /** The folder summary a crawl computes from the records it holds in memory. */
  function CompileFolderMetadata(files: seq<Listed>): FolderMeta {
    FolderMeta(|files|, ListTotal(files, Original), ListTotal(files, Compressed))
  }

  function Ids(files: seq<Listed>): set<string> {
    set x | x in files :: x.fileId
  }

  /** No identifier occurs twice. */
  predicate DistinctIds(files: seq<Listed>) {
    files == [] || (files[0].fileId !in Ids(files[1..]) && DistinctIds(files[1..]))
  }

  /** The rows a list of records stands for. */
  function Rows(files: seq<Listed>): map<string, FileData> {
    if files == [] then map[] else map[files[0].fileId := files[0].data] + Rows(files[1..])
  }

  function FilesOf(files: map<string, FileRow>, id: nat): map<string, FileData> {
    map f | f in files && files[f].folderId == id :: files[f].data
  }

  ghost function Total(rows: map<string, FileData>, m: Measure): int
    decreases |rows|
  {
    if rows == map[] then 0
    else
      var f :| f in rows;
      assert rows.Keys - {f} < rows.Keys;
      Bytes(rows[f], m) + Total(rows - {f}, m)
  }

  /** Any row may be counted first. */
  lemma {:induction false} TotalWithout(rows: map<string, FileData>, f: string, m: Measure)
    requires f in rows
    ensures Total(rows, m) == Bytes(rows[f], m) + Total(rows - {f}, m)
    decreases |rows|
  {
    var g :| g in rows && Total(rows, m) == Bytes(rows[g], m) + Total(rows - {g}, m);
    if g != f {
      assert (rows - {g}) - {f} == (rows - {f}) - {g};
      assert |rows - {g}| < |rows| by { assert (rows - {g}).Keys == rows.Keys - {g}; }
      assert |rows - {f}| < |rows| by { assert (rows - {f}).Keys == rows.Keys - {f}; }
      TotalWithout(rows - {g}, f, m);
      TotalWithout(rows - {f}, g, m);
    }
  }

  lemma {:induction false} RowsLookup(files: seq<Listed>)
    ensures Rows(files).Keys == Ids(files)
    ensures DistinctIds(files) ==> forall x :: x in files ==> Rows(files)[x.fileId] == x.data
  {
    if files != [] {
      RowsLookup(files[1..]);
      assert files == [files[0]] + files[1..];
    }
  }

  lemma {:induction false} RowsCons(files: seq<Listed>)
    requires files != [] && DistinctIds(files)
    ensures files[0].fileId in Rows(files) && Rows(files)[files[0].fileId] == files[0].data
    ensures Rows(files) - {files[0].fileId} == Rows(files[1..])
    ensures |Rows(files)| == 1 + |Rows(files[1..])|
  {
    RowsLookup(files[1..]);
    NewEntry(files[0].fileId, files[0].data, Rows(files[1..]));
  }

  lemma {:induction false} NewEntry<K, V>(k: K, v: V, m: map<K, V>)
    requires k !in m
    ensures (map[k := v] + m)[k] == v
    ensures (map[k := v] + m) - {k} == m
    ensures |map[k := v] + m| == 1 + |m|
  {
    assert (map[k := v] + m).Keys == {k} + m.Keys;
  }

  /** With distinct identifiers, summing the list and summing the stored rows is the same thing. */
  lemma {:induction false} CompiledMatchesRows(files: seq<Listed>, m: Measure)
    requires DistinctIds(files)
    ensures |Rows(files)| == |files|
    ensures Total(Rows(files), m) == ListTotal(files, m)
  {
    if files != [] {
      CompiledMatchesRows(files[1..], m);
      RowsCons(files);
      TotalWithout(Rows(files), files[0].fileId, m);
    }
  }

  function OriginalBytes(files: seq<Listed>): int {
    if files == [] then 0 else files[0].data.originalBytes + OriginalBytes(files[1..])
  }

  function CompressedBytes(files: seq<Listed>): int {
    if files == [] then 0 else files[0].data.compressedBytes + CompressedBytes(files[1..])
  }

  /** The compiled summary counts the records and adds up each of their two sizes. */
  lemma {:induction false} CompiledColumns(files: seq<Listed>)
    ensures CompileFolderMetadata(files) == FolderMeta(|files|, OriginalBytes(files), CompressedBytes(files))
  {
    if files != [] {
      CompiledColumns(files[1..]);
    }
  }

  /** ... and so do the totals over the rows stored for them. */
  lemma {:induction false} TotalColumns(files: seq<Listed>)
    requires DistinctIds(files)
    ensures |Rows(files)| == |files| && Total(Rows(files), Original) == OriginalBytes(files)
    ensures Total(Rows(files), Compressed) == CompressedBytes(files)
  {
    CompiledColumns(files);
    CompiledMatchesRows(files, Original);
    CompiledMatchesRows(files, Compressed);
  }

  // ---- What must hold of the tables -----------------------------------------------------------

  /** Folder ids are unique, already handed out, and file rows refer to existing folders. */
  ghost predicate TablesOk(t: Tables) {
    && (forall k, l :: k in t.folders && l in t.folders && t.folders[k].id == t.folders[l].id ==> k == l)
    && (forall k :: k in t.folders ==> t.folders[k].id < t.nextId)
    && (forall f :: f in t.files ==> exists k :: k in t.folders && t.folders[k].id == t.files[f].folderId)
  }

  ghost predicate Summarises(row: FolderRow, rows: map<string, FileData>) {
    row.itemCount == |rows| && row.originalBytes == Total(rows, Original) &&
    row.compressedBytes == Total(rows, Compressed)
  }

  /** The folder row's count and totals are those of its file rows. */
  ghost predicate AggregatesAgree(t: Tables, key: FolderKey)
    requires key in t.folders
  {
    Summarises(t.folders[key], FilesOf(t.files, t.folders[key].id))
  }

  ghost predicate AllAggregatesAgree(t: Tables) {
    forall k :: k in t.folders ==> AggregatesAgree(t, k)
  }

  // ---- The transactions, as functions of the tables -------------------------------------------

  /** The row of `key` after the folder part of a full-crawl transaction, with the id it uses. */
  function FolderAfterCrawl(t: Tables, key: FolderKey, domain: string, meta: FolderMeta, now: int): FolderRow {
    var blank := FolderRow(t.nextId, domain, 0, 0, 0, None);
    (if key in t.folders then t.folders[key] else blank)
      .(itemCount := meta.itemCount, originalBytes := meta.originalBytes, compressedBytes := meta.compressedBytes,
        crawledAt := Some(now))
  }

  function WithoutFolder(files: map<string, FileRow>, id: nat): map<string, FileRow> {
    map f | f in files && files[f].folderId != id :: files[f]
  }

  function Homed(rows: map<string, FileData>, id: nat): map<string, FileRow> {
    map f | f in rows :: FileRow(id, rows[f])
  }

  /** The bulk insert is refused when an identifier is repeated or already belongs to another folder. */
  predicate InsertAccepted(t: Tables, id: nat, files: seq<Listed>) {
    DistinctIds(files) && Ids(files) !! WithoutFolder(t.files, id).Keys
  }

  /** `save_crawled_folder_metadata`: one transaction, None when it is rolled back. */
  function SaveFolder(t: Tables, key: FolderKey, domain: string, meta: FolderMeta, files: seq<Listed>,
                      now: int): Option<Tables>
  {
    var row := FolderAfterCrawl(t, key, domain, meta, now);
    if InsertAccepted(t, row.id, files) then
      Some(Tables(t.folders[key := row], WithoutFolder(t.files, row.id) + Homed(Rows(files), row.id),
                  if key in t.folders then t.nextId else t.nextId + 1))
    else None
  }

  /** The delta's first step for a parent folder: make sure it has a row, empty and never crawled. */
  function EnsureFolder(t: Tables, key: FolderKey, domain: string): Tables {
    if key in t.folders then t
    else t.(folders := t.folders[key := FolderRow(t.nextId, domain, 0, 0, 0, None)], nextId := t.nextId + 1)
  }

  /** The delta's upsert of one leaf: every record or none; a repeated identifier refuses the statement. */
  function UpsertLeaf(t: Tables, id: nat, files: seq<Listed>): Option<Tables> {
    if DistinctIds(files) then Some(t.(files := t.files + Homed(Rows(files), id))) else None
  }

  /** The delta's checkpoint: recount the folder; stamp it only when every leaf succeeded. */
  ghost function Checkpoint(t: Tables, key: FolderKey, allLeavesSucceeded: bool, now: int): Tables
    requires key in t.folders
  {
    var row := t.folders[key];
    var rows := FilesOf(t.files, row.id);
    t.(folders := t.folders[key := row.(itemCount := |rows|, originalBytes := Total(rows, Original),
                                        compressedBytes := Total(rows, Compressed),
                                        crawledAt := if allLeavesSucceeded then Some(now) else row.crawledAt)])
  }

  // ---- The aggregates invariant ---------------------------------------------------------------

  lemma {:induction false} SaveFolderOwnRows(t: Tables, id: nat, files: seq<Listed>)
    ensures FilesOf(WithoutFolder(t.files, id) + Homed(Rows(files), id), id) == Rows(files)
  {
  }

  lemma {:induction false} SaveFolderOtherRows(t: Tables, id: nat, files: seq<Listed>, other: nat)
    requires InsertAccepted(t, id, files) && other != id
    ensures FilesOf(WithoutFolder(t.files, id) + Homed(Rows(files), id), other) == FilesOf(t.files, other)
  {
    RowsLookup(files);
    var files' := WithoutFolder(t.files, id) + Homed(Rows(files), id);
    forall f | f in t.files && t.files[f].folderId == other ensures f in files' && files'[f] == t.files[f] {
      assert f in WithoutFolder(t.files, id);
    }
    forall f | f in files' && files'[f].folderId == other ensures f in t.files && files'[f] == t.files[f] {
      assert f !in Homed(Rows(files), id);
    }
  }

  lemma {:induction false} SaveFolderKeepsTables(t: Tables, key: FolderKey, domain: string, meta: FolderMeta,
                                                 files: seq<Listed>, now: int)
    requires TablesOk(t) && SaveFolder(t, key, domain, meta, files, now).Some?
    ensures TablesOk(SaveFolder(t, key, domain, meta, files, now).value)
  {
    var t' := SaveFolder(t, key, domain, meta, files, now).value;
    var id := t'.folders[key].id;
    forall f | f in t'.files ensures exists k :: k in t'.folders && t'.folders[k].id == t'.files[f].folderId {
      if f in Rows(files) {
        assert key in t'.folders && t'.folders[key].id == t'.files[f].folderId;
      } else {
        var k :| k in t.folders && t.folders[k].id == t.files[f].folderId;
        assert k in t'.folders && t'.folders[k].id == t'.files[f].folderId;
      }
    }
  }

  /** A full-crawl transaction stores exactly the crawled records under its folder, and their true summary. */
  lemma {:induction false} SaveFolderStores(t: Tables, key: FolderKey, domain: string, files: seq<Listed>, now: int)
    requires SaveFolder(t, key, domain, CompileFolderMetadata(files), files, now).Some?
    ensures
      var t' := SaveFolder(t, key, domain, CompileFolderMetadata(files), files, now).value;
      && key in t'.folders
      && FilesOf(t'.files, t'.folders[key].id) == Rows(files)
      && AggregatesAgree(t', key)
      && t'.folders[key].itemCount == |files| && t'.folders[key].originalBytes == OriginalBytes(files)
      && t'.folders[key].compressedBytes == CompressedBytes(files)
  {
    var t' := SaveFolder(t, key, domain, CompileFolderMetadata(files), files, now).value;
    SaveFolderOwnRows(t, t'.folders[key].id, files);
    CompiledColumns(files);
    TotalColumns(files);
  }

  /** ... under its old row or one new row, stamped with the time of the crawl. */
  lemma {:induction false} SaveFolderStamps(t: Tables, key: FolderKey, domain: string, meta: FolderMeta,
                                            files: seq<Listed>, now: int)
    requires TablesOk(t) && SaveFolder(t, key, domain, meta, files, now).Some?
    ensures
      var t' := SaveFolder(t, key, domain, meta, files, now).value;
      && t'.folders.Keys == t.folders.Keys + {key} && t'.folders[key].crawledAt == Some(now)
      && (key in t.folders ==>
            t'.folders[key].id == t.folders[key].id && t'.folders[key].domain == t.folders[key].domain)
      && (key !in t.folders ==>
            t'.folders[key].domain == domain && forall k :: k in t.folders ==> t.folders[k].id != t'.folders[key].id)
  {
  }

  /** ... and leaves every other folder and its files alone. */
  lemma {:induction false} SaveFolderFrames(t: Tables, key: FolderKey, domain: string, meta: FolderMeta,
                                            files: seq<Listed>, now: int, k: FolderKey)
    requires TablesOk(t) && SaveFolder(t, key, domain, meta, files, now).Some? && k in t.folders && k != key
    ensures
      var t' := SaveFolder(t, key, domain, meta, files, now).value;
      && k in t'.folders && t'.folders[k] == t.folders[k]
      && FilesOf(t'.files, t.folders[k].id) == FilesOf(t.files, t.folders[k].id)
  {
    var t' := SaveFolder(t, key, domain, meta, files, now).value;
    SaveFolderOtherRows(t, t'.folders[key].id, files, t.folders[k].id);
  }

  /** Whatever a full-crawl transaction does, committed or rolled back, every folder still agrees with its files. */
  lemma {:induction false} FullCrawlKeepsAggregates(t: Tables, key: FolderKey, domain: string, files: seq<Listed>,
                                                    now: int)
    requires TablesOk(t) && AllAggregatesAgree(t)
    ensures
      var outcome := SaveFolder(t, key, domain, CompileFolderMetadata(files), files, now);
      var t' := if outcome.Some? then outcome.value else t;
      TablesOk(t') && AllAggregatesAgree(t')
  {
    var meta := CompileFolderMetadata(files);
    if SaveFolder(t, key, domain, meta, files, now).Some? {
      var t' := SaveFolder(t, key, domain, meta, files, now).value;
      SaveFolderKeepsTables(t, key, domain, meta, files, now);
      forall k | k in t'.folders ensures AggregatesAgree(t', k) {
        if k == key {
          SaveFolderStores(t, key, domain, files, now);
        } else {
          SaveFolderFrames(t, key, domain, meta, files, now, k);
          assert AggregatesAgree(t, k);
        }
      }
    }
  }

  /** After an upsert into folder `id`, another folder's rows are what it had minus the identifiers taken over. */
  lemma {:induction false} UpsertTakesRows(t: Tables, id: nat, files: seq<Listed>, other: nat)
    requires DistinctIds(files) && other != id
    ensures FilesOf(UpsertLeaf(t, id, files).value.files, other) == FilesOf(t.files, other) - Rows(files).Keys
  {
  }

  /** ... and its own rows are overridden by the new ones. */
  lemma {:induction false} UpsertOverrides(t: Tables, id: nat, files: seq<Listed>)
    requires DistinctIds(files)
    ensures FilesOf(UpsertLeaf(t, id, files).value.files, id) == FilesOf(t.files, id) + Rows(files)
  {
  }

  /** An upsert leaves another folder's summary right exactly when it takes none of that folder's files away. */
  lemma {:induction false} UpsertBreaksExactlyRehomed(t: Tables, key: FolderKey, id: nat, files: seq<Listed>)
    requires key in t.folders && t.folders[key].id != id && AggregatesAgree(t, key) && DistinctIds(files)
    ensures AggregatesAgree(UpsertLeaf(t, id, files).value, key) <==>
            Ids(files) !! FilesOf(t.files, t.folders[key].id).Keys
  {
    UpsertTakesRows(t, id, files, t.folders[key].id);
    RowsLookup(files);
    SummaryWithoutRows(t.folders[key], FilesOf(t.files, t.folders[key].id), Ids(files));
  }

  lemma {:induction false} SummaryWithoutRows(row: FolderRow, rows: map<string, FileData>, taken: set<string>)
    requires Summarises(row, rows)
    ensures Summarises(row, rows - taken) <==> taken !! rows.Keys
  {
    var after := rows - taken;
    assert after.Keys == rows.Keys - taken;
    if taken !! rows.Keys {
      assert after == rows;
    } else {
      FewerKeys(after.Keys, rows.Keys);
      assert |after| < |rows|;
    }
  }

  lemma {:induction false} FewerKeys<T>(a: set<T>, b: set<T>)
    requires a < b
    ensures |a| < |b|
  {
    assert b == a + (b - a);
    var x :| x in b && x !in a;
    assert x in b - a;
    assert |b| == |a| + |b - a|;
  }

  /** Inserting an empty folder row, upserting into it and re-checkpointing keep the table constraints. */
  lemma {:induction false} DeltaKeepsTables(t: Tables, key: FolderKey, domain: string)
    requires TablesOk(t)
    ensures TablesOk(EnsureFolder(t, key, domain)) && key in EnsureFolder(t, key, domain).folders
  {
    var t' := EnsureFolder(t, key, domain);
    forall f | f in t'.files ensures exists k :: k in t'.folders && t'.folders[k].id == t'.files[f].folderId {
      var k :| k in t.folders && t.folders[k].id == t.files[f].folderId;
      assert k in t'.folders && t'.folders[k].id == t'.files[f].folderId;
    }
  }

  lemma {:induction false} EmptySummary(row: FolderRow)
    requires row.itemCount == 0 && row.originalBytes == 0 && row.compressedBytes == 0
    ensures Summarises(row, map[])
  {
  }

  lemma {:induction false} NothingUnderNextId(t: Tables)
    requires TablesOk(t)
    ensures FilesOf(t.files, t.nextId) == map[]
  {
    forall f | f in t.files ensures t.files[f].folderId != t.nextId {
      var k :| k in t.folders && t.folders[k].id == t.files[f].folderId;
    }
  }

  /** A folder that has a row is left as it is; otherwise it gets one: new id, given domain, never crawled, and with the
      right summary of no files. */
  lemma {:induction false} EnsureFolderAdds(t: Tables, key: FolderKey, domain: string)
    requires TablesOk(t)
    ensures
      var t' := EnsureFolder(t, key, domain);
      && t'.files == t.files && t'.folders.Keys == t.folders.Keys + {key}
      && (forall k :: k in t.folders ==> t'.folders[k] == t.folders[k])
      && (key !in t.folders ==>
            t'.folders[key].domain == domain && t'.folders[key].crawledAt.None? && AggregatesAgree(t', key))
  {
    if key !in t.folders {
      NothingUnderNextId(t);
      EmptySummary(FolderRow(t.nextId, domain, 0, 0, 0, None));
    }
  }

  lemma {:induction false} UpsertKeepsTables(t: Tables, key: FolderKey, files: seq<Listed>)
    requires TablesOk(t) && key in t.folders && DistinctIds(files)
    ensures TablesOk(UpsertLeaf(t, t.folders[key].id, files).value)
  {
    var t' := UpsertLeaf(t, t.folders[key].id, files).value;
    forall f | f in t'.files ensures exists k :: k in t'.folders && t'.folders[k].id == t'.files[f].folderId {
      if f in Rows(files) {
        assert key in t'.folders;
      } else {
        var k :| k in t.folders && t.folders[k].id == t.files[f].folderId;
      }
    }
  }

  lemma {:induction false} CheckpointKeepsTables(t: Tables, key: FolderKey, ok: bool, now: int)
    requires TablesOk(t) && key in t.folders
    ensures
      var t' := Checkpoint(t, key, ok, now);
      && TablesOk(t') && AggregatesAgree(t', key)
      && t'.files == t.files && t'.folders.Keys == t.folders.Keys
      && t'.folders[key].id == t.folders[key].id && t'.folders[key].domain == t.folders[key].domain
      && t'.folders[key].crawledAt == (if ok then Some(now) else t.folders[key].crawledAt)
      && forall k :: k in t.folders && k != key ==> t'.folders[k] == t.folders[k]
  {
    var t' := Checkpoint(t, key, ok, now);
    forall f | f in t'.files ensures exists k :: k in t'.folders && t'.folders[k].id == t'.files[f].folderId {
      var k :| k in t.folders && t.folders[k].id == t.files[f].folderId;
      assert k in t'.folders;
    }
  }

  // ---- The database itself --------------------------------------------------------------------

  class Database {
    var folders: map<FolderKey, FolderRow>
    var files: map<string, FileRow>
    var nextId: nat

    function State(): Tables
      reads this
    {
      Tables(folders, files, nextId)
    }

    constructor ()
      ensures State() == Tables(map[], map[], 0)
    {
      folders, files, nextId := map[], map[], 0;
    }

    /** `save_crawled_folder_metadata`. `refused` stands for any database error of its own accord. */
    method SaveCrawledFolderMetadata(key: FolderKey, domain: string, meta: FolderMeta, listed: seq<Listed>, now: int,
                                     refused: bool)
      returns (ok: bool)
      modifies this
      ensures ok <==> !refused && SaveFolder(old(State()), key, domain, meta, listed, now).Some?
      ensures State() == if ok then SaveFolder(old(State()), key, domain, meta, listed, now).value else old(State())
    {
      var savedFolders, savedFiles, savedNext := folders, files, nextId;
      var id: nat;
      if key in folders {
        id := folders[key].id;
        folders := folders[key := folders[key].(itemCount := meta.itemCount, originalBytes := meta.originalBytes,
                                                compressedBytes := meta.compressedBytes, crawledAt := Some(now))];
      } else {
        id := nextId;
        nextId := nextId + 1;
        folders := folders[key := FolderRow(id, domain, meta.itemCount, meta.originalBytes, meta.compressedBytes,
                                            Some(now))];
      }
      files := WithoutFolder(files, id);
      ok := InsertAccepted(State(), id, listed);
      files := files + Homed(Rows(listed), id);
      ok := ok && !refused;
      if !ok {
        folders, files, nextId := savedFolders, savedFiles, savedNext;
      }
    }

    /** The aggregate query of the checkpoint. */
    method Aggregate(id: nat) returns (count: int, original: int, compressed: int)
      ensures count == |FilesOf(files, id)|
      ensures original == Total(FilesOf(files, id), Original)
      ensures compressed == Total(FilesOf(files, id), Compressed)
    {
      var rest := FilesOf(files, id);
      count, original, compressed := 0, 0, 0;
      while rest != map[]
        invariant count + |rest| == |FilesOf(files, id)|
        invariant original + Total(rest, Original) == Total(FilesOf(files, id), Original)
        invariant compressed + Total(rest, Compressed) == Total(FilesOf(files, id), Compressed)
        decreases |rest|
      {
        var f :| f in rest;
        TotalWithout(rest, f, Original);
        TotalWithout(rest, f, Compressed);
        assert (rest - {f}).Keys == rest.Keys - {f};
        count, original, compressed := count + 1, original + rest[f].originalBytes,
                                       compressed + rest[f].compressedBytes;
        rest := rest - {f};
      }
    }

    method EnsureFolderRow(key: FolderKey, domain: string) returns (id: nat)
      modifies this
      ensures State() == EnsureFolder(old(State()), key, domain)
      ensures key in folders && id == folders[key].id
    {
      if key in folders {
        id := folders[key].id;
      } else {
        id := nextId;
        folders := folders[key := FolderRow(id, domain, 0, 0, 0, None)];
        nextId := nextId + 1;
      }
    }

    method UpsertFiles(id: nat, listed: seq<Listed>) returns (ok: bool)
      modifies this
      ensures ok <==> UpsertLeaf(old(State()), id, listed).Some?
      ensures State() == if ok then UpsertLeaf(old(State()), id, listed).value else old(State())
    {
      ok := DistinctIds(listed);
      if ok {
        files := files + Homed(Rows(listed), id);
      }
    }

    method SaveCheckpoint(key: FolderKey, allLeavesSucceeded: bool, now: int)
      requires key in folders
      modifies this
      ensures State() == Checkpoint(old(State()), key, allLeavesSucceeded, now)
    {
      var count, original, compressed := Aggregate(folders[key].id);
      var row := folders[key].(itemCount := count, originalBytes := original, compressedBytes := compressed);
      if allLeavesSucceeded {
        row := row.(crawledAt := Some(now));
      }
      folders := folders[key := row];
    }
  }
}
