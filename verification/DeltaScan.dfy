/** Change detection of the delta refresh: matching log rows to folders, and the newest-first scan that stops early. */
module DeltaScan {
  import opened Prelude
  import opened Text

  /** One row of an export log; absent and empty cells are None, and so is a time that does not parse. */
  datatype LogRow = LogRow(fileName: Option<string>, folderName: Option<string>, maxUpdate: Option<int>)

  datatype Record = Record(fileName: string, folder: string, time: int)

  /** A leaf folder to crawl, under the active folder it belongs to: one entry of the dirty map's sets. */
  datatype Mark = Mark(parent: string, leaf: string)

  /** Base name of a catalogued file to the time it was last updated. */
  type FileIndex = map<string, Option<int>>

  const THRESHOLD: nat := 3

  // ---- Names ----------------------------------------------------------------------------------

  function StripExtension(name: string): string {
    var lower := Lower(name);
    if EndsWith(lower, ".zip") then name[..|name| - 4]
    else if EndsWith(lower, ".csv") then name[..|name| - 4]
    else if EndsWith(lower, ".xml") then name[..|name| - 4]
    else if EndsWith(lower, ".xlsx") then name[..|name| - 5]
    else name
  }

  const EVOLUTION: string := "OfferedTransferCapacitiesContinuousEvolution"

  /** `resolve_exact_fms_folder`: the day-and-area directory of an evolution file, the folder itself otherwise. */
  function ResolveExactFolder(folder: string, fileName: string): string {
    if Contains(folder, EVOLUTION) then
      var parts := Split(fileName, '_');
      if |parts| >= 4 then
        folder + "/" + parts[0] + "_" + parts[1] + "/" + parts[0] + "_" + parts[1] + "_" + parts[2] + "/" + parts[3]
      else folder
    else folder
  }

  /** The first active folder whose name occurs in the file name. */
  function FirstMatch(active: seq<string>, fileName: string): Option<string> {
    if active == [] then None
    else if Contains(fileName, active[0]) then Some(active[0])
    else FirstMatch(active[1..], fileName)
  }

  lemma {:induction false} LowerConcat(a: string, b: string)
    ensures Lower(a + b) == Lower(a) + Lower(b)
  {
  }

  predicate IsExtension(ext: string) {
    Lower(ext) in {".zip", ".csv", ".xml", ".xlsx"}
  }

  /** A known extension comes off whatever its case, and only one: the base name before it is kept as it is. */
  lemma {:induction false} ExtensionComesOff(base: string, ext: string)
    requires IsExtension(ext)
    ensures StripExtension(base + ext) == base
  {
    LowerConcat(base, ext);
    var lower := Lower(base + ext);
    assert lower[|lower| - |ext|..] == Lower(ext);
    assert lower[|lower| - 1] == Lower(ext)[|ext| - 1];
    assert (base + ext)[..|base|] == base;
  }

  /** A name without a known extension is its own base name. */
  lemma {:induction false} NoExtensionStays(name: string)
    ensures StripExtension(name) == name <==> forall n :: 0 <= n <= |name| ==> !IsExtension(name[n..])
  {
    forall n | 0 <= n <= |name| && IsExtension(name[n..]) ensures StripExtension(name) != name {
      assert name == name[..n] + name[n..];
      ExtensionComesOff(name[..n], name[n..]);
      assert |Lower(name[n..])| == |name[n..]|;
    }
    if StripExtension(name) != name {
      StrippedExtension(name, |name| - if EndsWith(Lower(name), ".xlsx") then 5 else 4);
    }
  }

  lemma {:induction false} StrippedExtension(name: string, n: int)
    requires StripExtension(name) != name && n == |name| - if EndsWith(Lower(name), ".xlsx") then 5 else 4
    ensures 0 <= n && IsExtension(name[n..])
  {
    LowerConcat(name[..n], name[n..]);
    assert name == name[..n] + name[n..];
    assert Lower(name)[n..] == Lower(name[n..]);
  }

  /** A file named year_month_day_out_rest lies in its month, day and out-area directory if its folder is an evolution
      folder, and in the folder itself otherwise. */
  lemma {:induction false} EvolutionLeaf(folder: string, year: string, month: string, day: string, out: string,
                                         rest: string)
    requires '_' !in year && '_' !in month && '_' !in day && '_' !in out
    ensures ResolveExactFolder(folder, year + "_" + month + "_" + day + "_" + out + "_" + rest) ==
            if Contains(folder, "OfferedTransferCapacitiesContinuousEvolution")
            then folder + "/" + year + "_" + month + "/" + year + "_" + month + "_" + day + "/" + out
            else folder
    ensures ResolveExactFolder(folder, year + "_" + month + "_" + day + "_" + out) ==
            ResolveExactFolder(folder, year + "_" + month + "_" + day + "_" + out + "_" + rest)
  {
    SplitConcat(year + "_" + month + "_" + day + "_" + out, '_', rest);
    SplitConcat(year + "_" + month + "_" + day, '_', out);
    SplitConcat(year + "_" + month, '_', day);
    SplitConcat(year, '_', month);
    SplitWithoutSeparator(year, '_');
    SplitWithoutSeparator(month, '_');
    SplitWithoutSeparator(day, '_');
    SplitWithoutSeparator(out, '_');
    assert Split(year + "_" + month + "_" + day + "_" + out + "_" + rest, '_')[..4] == [year, month, day, out];
  }

  // ---- From log rows to records ---------------------------------------------------------------

  /** What one row of the standard log contributes. */
  function StandardRecord(active: seq<string>, row: LogRow): Option<Record> {
    if row.fileName.None? then None
    else
      var folder := FirstMatch(active, row.fileName.value);
      if folder.Some? && row.maxUpdate.Some? then Some(Record(row.fileName.value, folder.value, row.maxUpdate.value))
      else None
  }

  /** What one row of the evolution log contributes. */
  function EvolutionRecord(active: seq<string>, row: LogRow): Option<Record> {
    if row.fileName.Some? && row.folderName.Some? && row.folderName.value in active && row.maxUpdate.Some?
    then Some(Record(row.fileName.value, row.folderName.value, row.maxUpdate.value))
    else None
  }

  datatype Log = Standard | Evolution

  function RecordOf(log: Log, active: seq<string>, row: LogRow): Option<Record> {
    if log == Standard then StandardRecord(active, row) else EvolutionRecord(active, row)
  }

  function Records(log: Log, active: seq<string>, rows: seq<LogRow>): seq<Record> {
    if rows == [] then []
    else
      var r := RecordOf(log, active, rows[0]);
      (if r.Some? then [r.value] else []) + Records(log, active, rows[1..])
  }

  lemma {:induction false} RecordsExact(log: Log, active: seq<string>, rows: seq<LogRow>, r: Record)
    ensures r in Records(log, active, rows) <==> exists row :: row in rows && RecordOf(log, active, row) == Some(r)
  {
    if rows != [] {
      RecordsExact(log, active, rows[1..], r);
      assert rows == [rows[0]] + rows[1..];
    }
  }

  lemma {:induction false} RecordsConcat(log: Log, active: seq<string>, a: seq<LogRow>, b: seq<LogRow>)
    ensures Records(log, active, a + b) == Records(log, active, a) + Records(log, active, b)
  {
    if a == [] {
      assert a + b == b;
    } else {
      assert (a + b)[0] == a[0] && (a + b)[1..] == a[1..] + b;
      RecordsConcat(log, active, a[1..], b);
      var r := RecordOf(log, active, a[0]);
      assert Records(log, active, a + b) == (if r.Some? then [r.value] else []) + Records(log, active, a[1..] + b);
    }
  }

  lemma {:induction false} FirstMatchIsActive(active: seq<string>, fileName: string)
    requires FirstMatch(active, fileName).Some?
    ensures FirstMatch(active, fileName).value in active
  {
    if !Contains(fileName, active[0]) {
      FirstMatchIsActive(active[1..], fileName);
    }
  }

  // ---- Which folder a file name counts for ----------------------------------------------------

  /** The folder occurs in the file name, and no folder listed earlier does. */
  predicate Attributed(active: seq<string>, fileName: string, f: string) {
    exists i ::
      && 0 <= i < |active| && active[i] == f && Contains(fileName, active[i])
      && forall j :: 0 <= j < i ==> !Contains(fileName, active[j])
  }

  lemma {:induction false} FirstMatchExactly(active: seq<string>, fileName: string, f: string)
    ensures FirstMatch(active, fileName) == Some(f) <==> Attributed(active, fileName, f)
  {
    if active != [] {
      var rest := active[1..];
      FirstMatchExactly(rest, fileName, f);
      if Contains(fileName, active[0]) {
        assert Attributed(active, fileName, active[0]);
      } else {
        if Attributed(rest, fileName, f) {
          var i :| 0 <= i < |rest| && rest[i] == f && Contains(fileName, rest[i]) &&
                   forall j :: 0 <= j < i ==> !Contains(fileName, rest[j]);
          assert active[i + 1] == f && forall j :: 0 < j < i + 1 ==> active[j] == rest[j - 1];
        }
        if Attributed(active, fileName, f) {
          var i :| 0 <= i < |active| && active[i] == f && Contains(fileName, active[i]) &&
                   forall j :: 0 <= j < i ==> !Contains(fileName, active[j]);
          assert i > 0 && rest[i - 1] == f && forall j :: 0 <= j < i - 1 ==> rest[j] == active[j + 1];
        }
      }
    }
  }

  /** A row of the standard log counts for a folder exactly when it is dated, and the folder occurs in its file name
      while none listed earlier does. */
  lemma {:induction false} AttributedExactly(active: seq<string>, row: LogRow, f: string)
    ensures StandardRecord(active, row).Some? && StandardRecord(active, row).value.folder == f <==>
            row.fileName.Some? && row.maxUpdate.Some? && Attributed(active, row.fileName.value, f)
  {
    if row.fileName.Some? {
      FirstMatchExactly(active, row.fileName.value, f);
    }
  }

  /** Wherever the folder is listed, a folder whose name occurs in its name is listed before it. */
  predicate Shadowed(active: seq<string>, f: string) {
    forall j :: 0 <= j < |active| && active[j] == f ==> exists i :: 0 <= i < j && Contains(f, active[i])
  }

  /** Exactly then no file name whatever counts for it. */
  lemma {:induction false} ShadowedExactly(active: seq<string>, f: string)
    ensures Shadowed(active, f) <==> forall fileName :: !Attributed(active, fileName, f)
  {
    if Shadowed(active, f) {
      forall fileName ensures !Attributed(active, fileName, f) {
        if j :| 0 <= j < |active| && active[j] == f && Contains(fileName, active[j]) &&
                forall i :: 0 <= i < j ==> !Contains(fileName, active[i])
        {
          var i :| 0 <= i < j && Contains(f, active[i]);
          ContainsChain(fileName, f, active[i]);
        }
      }
    } else {
      var j :| 0 <= j < |active| && active[j] == f && forall i :: 0 <= i < j ==> !Contains(f, active[i]);
      ContainsItself(f);
      assert Attributed(active, f, f);
    }
  }

  // ---- Newest first ---------------------------------------------------------------------------

  predicate NewestFirst(records: seq<Record>) {
    forall i, j :: 0 <= i < j < |records| ==> records[i].time >= records[j].time
  }

  /** Insert before the first record that is not newer: a descending sort that keeps records of equal time in order. */
  function InsertByTime(r: Record, sorted: seq<Record>): seq<Record> {
    if sorted == [] || sorted[0].time <= r.time then [r] + sorted
    else [sorted[0]] + InsertByTime(r, sorted[1..])
  }

  function SortNewestFirst(records: seq<Record>): seq<Record> {
    if records == [] then [] else InsertByTime(records[0], SortNewestFirst(records[1..]))
  }

  lemma {:induction false} InsertByTimeInserts(r: Record, sorted: seq<Record>)
    ensures multiset(InsertByTime(r, sorted)) == multiset(sorted) + multiset{r}
  {
    if !(sorted == [] || sorted[0].time <= r.time) {
      InsertByTimeInserts(r, sorted[1..]);
      assert sorted == [sorted[0]] + sorted[1..];
    }
  }

  lemma {:induction false} InsertedMembers(r: Record, sorted: seq<Record>)
    ensures forall x :: x in InsertByTime(r, sorted) ==> x in sorted || x == r
  {
    InsertByTimeInserts(r, sorted);
    assert forall x :: x in InsertByTime(r, sorted) ==> x in multiset(InsertByTime(r, sorted));
  }

  lemma {:induction false} NewestFirstCons(head: Record, rest: seq<Record>)
    requires NewestFirst(rest) && forall x :: x in rest ==> x.time <= head.time
    ensures NewestFirst([head] + rest)
  {
  }

  lemma {:induction false} InsertByTimeSorts(r: Record, sorted: seq<Record>)
    requires NewestFirst(sorted)
    ensures NewestFirst(InsertByTime(r, sorted))
  {
    if sorted == [] {
    } else if sorted[0].time <= r.time {
      NewestFirstCons(r, sorted);
    } else {
      InsertByTimeSorts(r, sorted[1..]);
      InsertedMembers(r, sorted[1..]);
      NewestFirstCons(sorted[0], InsertByTime(r, sorted[1..]));
    }
  }

  /** The sort really sorts, and neither loses nor invents a record. */
  lemma {:induction false} SortNewestFirstSorts(records: seq<Record>)
    ensures NewestFirst(SortNewestFirst(records))
    ensures multiset(SortNewestFirst(records)) == multiset(records)
  {
    if records != [] {
      SortNewestFirstSorts(records[1..]);
      InsertByTimeSorts(records[0], SortNewestFirst(records[1..]));
      InsertByTimeInserts(records[0], SortNewestFirst(records[1..]));
      assert records == [records[0]] + records[1..];
    }
  }

  lemma {:induction false} SortKeepsMembers(records: seq<Record>, r: Record)
    ensures r in SortNewestFirst(records) <==> r in records
  {
    SortNewestFirstSorts(records);
    assert r in multiset(SortNewestFirst(records)) <==> r in multiset(records);
  }

  // ---- The scan -------------------------------------------------------------------------------

  /** The catalogue does not know the file, cannot date it, or holds an older version. */
  predicate Dirty(db: FileIndex, r: Record) {
    var base := StripExtension(r.fileName);
    base !in db || db[base].None? || r.time > db[base].value
  }

  function MarkOf(r: Record): Mark {
    Mark(r.folder, ResolveExactFolder(r.folder, r.fileName))
  }

  /** What scanning marks when `streak` clean records have just been seen. */
  function Scan(db: FileIndex, records: seq<Record>, streak: nat): set<Mark> {
    if records == [] || streak >= THRESHOLD then {}
    else if Dirty(db, records[0]) then {MarkOf(records[0])} + Scan(db, records[1..], 0)
    else Scan(db, records[1..], streak + 1)
  }

  /** How many records that scan looks at. */
  function Examined(db: FileIndex, records: seq<Record>, streak: nat): nat {
    if records == [] || streak >= THRESHOLD then 0
    else 1 + Examined(db, records[1..], if Dirty(db, records[0]) then 0 else streak + 1)
  }

  /** The scan without the early exit. */
  function FullScan(db: FileIndex, records: seq<Record>): set<Mark> {
    set i | 0 <= i < |records| && Dirty(db, records[i]) :: MarkOf(records[i])
  }

  /** Three clean records in a row, counting `streak` clean ones before the list, somewhere before position `i`. */
  ghost predicate StopsBefore(db: FileIndex, records: seq<Record>, streak: nat, i: nat)
    requires i <= |records|
  {
    exists j: nat :: j <= i && CleanRun(db, records, streak, j) >= THRESHOLD
  }

  /** The number of clean records directly before position `j`, counting `streak` before the list. */
  ghost function CleanRun(db: FileIndex, records: seq<Record>, streak: nat, j: nat): nat
    requires j <= |records|
  {
    if j == 0 then streak
    else if Dirty(db, records[j - 1]) then 0
    else CleanRun(db, records, streak, j - 1) + 1
  }

  lemma {:induction false} CleanRunShift(db: FileIndex, records: seq<Record>, streak: nat, j: nat)
    requires 0 < j <= |records|
    ensures CleanRun(db, records, streak, j) ==
            CleanRun(db, records[1..], if Dirty(db, records[0]) then 0 else streak + 1, j - 1)
  {
    if j > 1 {
      CleanRunShift(db, records, streak, j - 1);
      assert records[1..][j - 2] == records[j - 1];
    }
  }

  lemma {:induction false} StopsBeforeShift(db: FileIndex, records: seq<Record>, streak: nat, i: nat)
    requires 0 < i <= |records| && streak < THRESHOLD
    ensures StopsBefore(db, records, streak, i) <==>
            StopsBefore(db, records[1..], if Dirty(db, records[0]) then 0 else streak + 1, i - 1)
  {
    var next := if Dirty(db, records[0]) then 0 else streak + 1;
    forall j: nat | 0 < j <= i ensures CleanRun(db, records, streak, j) == CleanRun(db, records[1..], next, j - 1) {
      CleanRunShift(db, records, streak, j);
    }
    if StopsBefore(db, records[1..], next, i - 1) {
      var j: nat :| j <= i - 1 && CleanRun(db, records[1..], next, j) >= THRESHOLD;
      assert CleanRun(db, records, streak, j + 1) >= THRESHOLD;
    }
    if StopsBefore(db, records, streak, i) {
      var j: nat :| j <= i && CleanRun(db, records, streak, j) >= THRESHOLD;
      assert j > 0;
      assert CleanRun(db, records[1..], next, j - 1) >= THRESHOLD;
    }
  }

  lemma {:induction false} ScanFromStreak(db: FileIndex, records: seq<Record>, streak: nat, m: Mark)
    requires streak < THRESHOLD
    ensures m in Scan(db, records, streak) <==>
            exists i ::
              0 <= i < |records| && Dirty(db, records[i]) && MarkOf(records[i]) == m &&
              !StopsBefore(db, records, streak, i)
  {
    if records != [] {
      var rest := records[1..];
      var next := if Dirty(db, records[0]) then 0 else streak + 1;
      assert !StopsBefore(db, records, streak, 0);
      if next < THRESHOLD {
        ScanFromStreak(db, rest, next, m);
      } else {
        forall i: nat | 0 < i <= |records| ensures StopsBefore(db, records, streak, i) {
          CleanRunShift(db, records, streak, 1);
          assert CleanRun(db, records, streak, 1) >= THRESHOLD;
        }
      }
      if m in Scan(db, rest, next) {
        var i :| 0 <= i < |rest| && Dirty(db, rest[i]) && MarkOf(rest[i]) == m && !StopsBefore(db, rest, next, i);
        StopsBeforeShift(db, records, streak, i + 1);
        assert records[i + 1] == rest[i];
      }
      if i :| 0 < i < |records| && Dirty(db, records[i]) && MarkOf(records[i]) == m &&
              !StopsBefore(db, records, streak, i)
      {
        StopsBeforeShift(db, records, streak, i);
        assert rest[i - 1] == records[i];
      }
    }
  }

  /** The three records from position `j` on are clean. */
  predicate CleanTriple(db: FileIndex, records: seq<Record>, j: int) {
    0 <= j && j + 2 < |records| && !Dirty(db, records[j]) && !Dirty(db, records[j + 1]) && !Dirty(db, records[j + 2])
  }

  ghost predicate TripleBefore(db: FileIndex, records: seq<Record>, i: int) {
    exists j :: j + 2 < i && CleanTriple(db, records, j)
  }

  lemma {:induction false} CleanRunEnds(db: FileIndex, records: seq<Record>, j: nat)
    requires j <= |records|
    ensures CleanRun(db, records, 0, j) >= 3 <==> CleanTriple(db, records, j - 3)
  {
    if j >= 3 {
      assert CleanRun(db, records, 0, j - 1) ==
             if Dirty(db, records[j - 2]) then 0 else CleanRun(db, records, 0, j - 2) + 1;
      assert CleanRun(db, records, 0, j - 2) ==
             if Dirty(db, records[j - 3]) then 0 else CleanRun(db, records, 0, j - 3) + 1;
    } else if j == 2 {
      assert CleanRun(db, records, 0, 1) == if Dirty(db, records[0]) then 0 else 1;
    }
  }

  lemma {:induction false} StopsExactly(db: FileIndex, records: seq<Record>, i: nat)
    requires i <= |records|
    ensures StopsBefore(db, records, 0, i) <==> TripleBefore(db, records, i)
  {
    if StopsBefore(db, records, 0, i) {
      var j: nat :| j <= i && CleanRun(db, records, 0, j) >= THRESHOLD;
      CleanRunEnds(db, records, j);
      assert CleanTriple(db, records, j - 3);
    }
    if j :| j + 2 < i && CleanTriple(db, records, j) {
      CleanRunEnds(db, records, j + 3);
    }
  }

  /** A leaf is marked exactly when a record of it is dirty and no three clean records in a row come before it. */
  lemma {:induction false} ScanExact(db: FileIndex, records: seq<Record>, m: Mark)
    ensures m in Scan(db, records, 0) <==>
            exists i ::
              0 <= i < |records| && Dirty(db, records[i]) && MarkOf(records[i]) == m && !TripleBefore(db, records, i)
  {
    ScanFromStreak(db, records, 0, m);
    forall i | 0 <= i < |records| ensures StopsBefore(db, records, 0, i) <==> TripleBefore(db, records, i) {
      StopsExactly(db, records, i);
    }
  }

  lemma {:induction false} ExaminedFromStreak(db: FileIndex, records: seq<Record>, streak: nat, n: nat)
    requires n <= |records| && forall j: nat :: j < n ==> CleanRun(db, records, streak, j) < THRESHOLD
    requires n == |records| || CleanRun(db, records, streak, n) >= THRESHOLD
    ensures Examined(db, records, streak) == n
  {
    if n > 0 {
      var next := if Dirty(db, records[0]) then 0 else streak + 1;
      assert CleanRun(db, records, streak, 0) == streak;
      forall j: nat | j < n ensures CleanRun(db, records[1..], next, j) == CleanRun(db, records, streak, j + 1) {
        CleanRunShift(db, records, streak, j + 1);
      }
      ExaminedFromStreak(db, records[1..], next, n - 1);
    }
  }

  /** The scan stops right after the first three clean records in a row, and otherwise looks at every record. */
  lemma {:induction false} ExaminedExactly(db: FileIndex, records: seq<Record>)
    ensures forall j :: CleanTriple(db, records, j) && !TripleBefore(db, records, j + 2) ==>
              Examined(db, records, 0) == j + 3
    ensures !TripleBefore(db, records, |records|) ==> Examined(db, records, 0) == |records|
  {
    forall k: nat | k <= |records| ensures CleanRun(db, records, 0, k) >= 3 <==> CleanTriple(db, records, k - 3) {
      CleanRunEnds(db, records, k);
    }
    forall j | CleanTriple(db, records, j) && !TripleBefore(db, records, j + 2)
      ensures Examined(db, records, 0) == j + 3
    {
      ExaminedFromStreak(db, records, 0, j + 3);
    }
    if !TripleBefore(db, records, |records|) {
      ExaminedFromStreak(db, records, 0, |records|);
    }
  }

  /** The early exit never marks anything a full scan would not, and misses exactly what lies only behind the stop. */
  lemma {:induction false} EarlyStopAgainstFullScan(db: FileIndex, records: seq<Record>)
    ensures Scan(db, records, 0) <= FullScan(db, records)
    ensures Scan(db, records, 0) == FullScan(db, records) <==>
            forall i :: 0 <= i < |records| && Dirty(db, records[i]) ==>
              exists j ::
                0 <= j < |records| && Dirty(db, records[j]) && MarkOf(records[j]) == MarkOf(records[i]) &&
                !TripleBefore(db, records, j)
  {
    forall m ensures m in Scan(db, records, 0) <==>
                     exists i ::
                       0 <= i < |records| && Dirty(db, records[i]) && MarkOf(records[i]) == m &&
                       !TripleBefore(db, records, i)
    {
      ScanExact(db, records, m);
    }
    if Scan(db, records, 0) == FullScan(db, records) {
      forall i | 0 <= i < |records| && Dirty(db, records[i])
        ensures exists j ::
                0 <= j < |records| && Dirty(db, records[j]) && MarkOf(records[j]) == MarkOf(records[i]) &&
                !TripleBefore(db, records, j)
      {
        assert MarkOf(records[i]) in FullScan(db, records);
      }
    }
  }

  /** Newest first, if everything after `cutoff` is dirty, then everything after `cutoff` is marked: no update is
      missed. */
  lemma {:induction false} NewerThanCutoffIsMarked(db: FileIndex, records: seq<Record>, cutoff: int, r: Record)
    requires NewestFirst(records) && r in records && r.time > cutoff
    requires forall x :: x in records && x.time > cutoff ==> Dirty(db, x)
    ensures MarkOf(r) in Scan(db, records, 0)
  {
    var i :| 0 <= i < |records| && records[i] == r;
    forall j | j + 2 < i ensures !CleanTriple(db, records, j) {
      if 0 <= j {
        assert records[j].time >= records[i].time && records[j] in records;
      }
    }
    ScanExact(db, records, MarkOf(r));
  }

  lemma {:induction false} ExaminedBoundFrom(db: FileIndex, records: seq<Record>, streak: nat)
    requires streak <= 3
    ensures Examined(db, records, streak) <= |records|
    ensures Examined(db, records, streak) + streak <=
            3 * (DirtyCount(db, records[..Examined(db, records, streak)]) + 1)
  {
    var n := Examined(db, records, streak);
    if records == [] || streak >= THRESHOLD {
    } else {
      var next := if Dirty(db, records[0]) then 0 else streak + 1;
      ExaminedBoundFrom(db, records[1..], next);
      assert records[..n][1..] == records[1..][..n - 1];
    }
  }

  /** Work bound: at most three records are examined per dirty one found, plus the three that stop the scan. */
  lemma {:induction false} ExaminedBound(db: FileIndex, records: seq<Record>)
    ensures Examined(db, records, 0) <= |records|
    ensures Examined(db, records, 0) <= 3 * (DirtyCount(db, records[..Examined(db, records, 0)]) + 1)
  {
    ExaminedBoundFrom(db, records, 0);
  }

  function DirtyCount(db: FileIndex, records: seq<Record>): nat {
    if records == [] then 0 else (if Dirty(db, records[0]) then 1 else 0) + DirtyCount(db, records[1..])
  }

  // ---- The loops ------------------------------------------------------------------------------

  /** Collect the matched, dated records of a log. */
  method CollectRecords(log: Log, active: seq<string>, rows: seq<LogRow>) returns (records: seq<Record>)
    ensures records == Records(log, active, rows)
  {
    records := [];
    for i := 0 to |rows|
      invariant records == Records(log, active, rows[..i])
    {
      var r := RecordOf(log, active, rows[i]);
      RecordsConcat(log, active, rows[..i], [rows[i]]);
      assert rows[..i + 1] == rows[..i] + [rows[i]];
      assert Records(log, active, [rows[i]]) ==
             (if r.Some? then [r.value] else []) + Records(log, active, [rows[i]][1..]);
      if r.Some? {
        records := records + [r.value];
      }
    }
    assert rows[..|rows|] == rows;
  }

  /** Scan newest first, adding dirty leaves to `dirty`, until three consecutive records are up to date. */
  method ScanLog(db: FileIndex, records: seq<Record>, dirty: set<Mark>) returns (marked: set<Mark>, examined: nat)
    ensures marked == dirty + Scan(db, records, 0)
    ensures examined == Examined(db, records, 0)
  {
    marked, examined := dirty, 0;
    var consecutiveMatches := 0;
    while examined < |records|
      invariant 0 <= examined <= |records| && 0 <= consecutiveMatches < THRESHOLD
      invariant marked + Scan(db, records[examined..], consecutiveMatches) == dirty + Scan(db, records, 0)
      invariant examined + Examined(db, records[examined..], consecutiveMatches) == Examined(db, records, 0)
    {
      var r := records[examined];
      assert records[examined..][1..] == records[examined + 1..];
      examined := examined + 1;
      if Dirty(db, r) {
        marked := marked + {MarkOf(r)};
        consecutiveMatches := 0;
      } else {
        consecutiveMatches := consecutiveMatches + 1;
      }
      if consecutiveMatches >= THRESHOLD {
        break;
      }
    }
  }
}
