/** The sync engine: select, check, download, upload and register file by file, with errors isolated per mapping. */
module Sync {
  import opened Prelude
  import opened Text
  import opened Protocol

  /** Where the transfer of one file may raise. The last two raise after their effect has landed. */
  datatype Fault = NoFault | DiskFull | CheckFails | DownloadFails | TempWriteFails | UploadFails | CleanupFails
    | RegisterFails
                 | UploadLandsButRaises | RegisterLandsButRaises

  /** A selected file: what the listing says, the content a download would bring, and how the transfer turns out. */
  datatype FileJob = FileJob(name: string, hasId: bool, hash: Version, content: Version, headSeen: bool, fault: Fault)

  /** A resolved mapping; None where listing the remote folder raises. */
  datatype MappingJob = MappingJob(schemaPath: string, files: Option<seq<FileJob>>)

  datatype Metrics = Metrics(processed: nat, downloaded: nat, skipped: nat, errors: nat)

  datatype Zone = Zone(s3: map<Key, Version>, registry: map<Key, Version>)

  function S3Key(schemaPath: string, name: string): Key {
    Strip(schemaPath, '/') + "/" + name
  }

  datatype FileOutcome = Skipped | Transferred | Raised

  datatype FileResult = FileResult(zone: Zone, outcome: FileOutcome)

  /** Does the object reach S3, and does the row reach the registry? */
  predicate Uploads(fault: Fault) {
    fault in {NoFault, CleanupFails, RegisterFails, UploadLandsButRaises, RegisterLandsButRaises}
  }

  predicate Registers(fault: Fault) {
    fault in {NoFault, RegisterLandsButRaises}
  }

  /** One file through the loop body. */
  function SyncFile(zone: Zone, path: string, f: FileJob): FileResult {
    var item := Item(S3Key(path, f.name), f.hash);
    if !f.hasId then FileResult(zone, Skipped)
    else if f.fault == DiskFull || f.fault == CheckFails then FileResult(zone, Raised)
    else if AlreadySynced(zone.registry, zone.s3, item, f.headSeen) then FileResult(zone, Skipped)
    else
      FileResult(Zone(if Uploads(f.fault) then zone.s3[item.key := f.content] else zone.s3,
                      if Registers(f.fault) then zone.registry[item.key := f.hash] else zone.registry),
                 if f.fault == NoFault then Transferred else Raised)
  }

  function Count(m: Metrics, outcome: FileOutcome): Metrics {
    match outcome
    case Skipped => m.(skipped := m.skipped + 1)
    case Transferred => m.(downloaded := m.downloaded + 1, processed := m.processed + 1)
    case Raised => m.(errors := m.errors + 1)
  }

  datatype SyncState = SyncState(zone: Zone, metrics: Metrics)

  /** The files of one mapping, up to the first that raises. */
  function SyncFiles(s: SyncState, path: string, files: seq<FileJob>): SyncState
    decreases |files|
  {
    if files == [] then s
    else
      var r := SyncFile(s.zone, path, files[0]);
      var s' := SyncState(r.zone, Count(s.metrics, r.outcome));
      if r.outcome == Raised then s' else SyncFiles(s', path, files[1..])
  }

  function SyncMapping(s: SyncState, job: MappingJob): SyncState {
    match job.files
    case None => s.(metrics := Count(s.metrics, Raised))
    case Some(files) => SyncFiles(s, job.schemaPath, files)
  }

  function SyncAll(s: SyncState, jobs: seq<MappingJob>): SyncState
    decreases |jobs|
  {
    if jobs == [] then s else SyncAll(SyncMapping(s, jobs[0]), jobs[1..])
  }

  const NOTHING: Metrics := Metrics(0, 0, 0, 0)

  class LandingZone {
    var s3: map<Key, Version>
    var registry: map<Key, Version>

    function Contents(): Zone
      reads this
    {
      Zone(s3, registry)
    }

    /** The transfer of one file that is not yet synced; the answer says whether it raised. */
    method Transfer(key: Key, f: FileJob) returns (raised: bool)
      modifies this
      ensures s3 == if Uploads(f.fault) then old(s3)[key := f.content] else old(s3)
      ensures registry == if Registers(f.fault) then old(registry)[key := f.hash] else old(registry)
      ensures f.fault !in {DiskFull, CheckFails} ==> (raised <==> f.fault != NoFault)
    {
      if f.fault == DownloadFails || f.fault == TempWriteFails || f.fault == UploadFails {
        return true;
      }
      if f.fault != DiskFull && f.fault != CheckFails {
        s3 := s3[key := f.content];
      }
      if f.fault == UploadLandsButRaises || f.fault == CleanupFails || f.fault == RegisterFails {
        return true;
      }
      if f.fault == NoFault || f.fault == RegisterLandsButRaises {
        registry := registry[key := f.hash];
      }
      return f.fault != NoFault;
    }

    /** `sync_active_domains`, once the mappings are resolved. */
    method SyncActiveDomains(jobs: seq<MappingJob>) returns (metrics: Metrics)
      modifies this
      ensures SyncState(Contents(), metrics) == SyncAll(SyncState(old(Contents()), NOTHING), jobs)
    {
      metrics := NOTHING;
      ghost var start := SyncState(Contents(), NOTHING);
      for i := 0 to |jobs|
        invariant SyncAll(SyncState(Contents(), metrics), jobs[i..]) == SyncAll(start, jobs)
      {
        assert jobs[i..][1..] == jobs[i + 1..];
        if jobs[i].files.None? {
          metrics := metrics.(errors := metrics.errors + 1);
          continue;
        }
        var files := jobs[i].files.value;
        ghost var entered := SyncState(Contents(), metrics);
        ghost var whole := SyncFiles(entered, jobs[i].schemaPath, files);
        var j, raised := 0, false;
        while j < |files| && !raised
          invariant 0 <= j <= |files|
          invariant !raised ==> SyncFiles(SyncState(Contents(), metrics), jobs[i].schemaPath, files[j..]) == whole
          invariant raised ==> SyncState(Contents(), metrics.(errors := metrics.errors + 1)) == whole
          decreases |files| - j, !raised
        {
          var f := files[j];
          assert files[j..][1..] == files[j + 1..];
          j := j + 1;
          if !f.hasId {
            metrics := metrics.(skipped := metrics.skipped + 1);
            continue;
          }
          if f.fault == DiskFull || f.fault == CheckFails {
            raised := true;
            continue;
          }
          var key := S3Key(jobs[i].schemaPath, f.name);
          if AlreadySynced(registry, s3, Item(key, f.hash), f.headSeen) {
            metrics := metrics.(skipped := metrics.skipped + 1);
            continue;
          }
          raised := Transfer(key, f);
          if !raised {
            metrics := metrics.(downloaded := metrics.downloaded + 1, processed := metrics.processed + 1);
          }
        }
        if raised {
          metrics := metrics.(errors := metrics.errors + 1);
        }
      }
    }
  }

  // ---- Accounting -----------------------------------------------------------------------------

  function Selected(jobs: seq<MappingJob>): nat {
    if jobs == [] then 0 else (if jobs[0].files.Some? then |jobs[0].files.value| else 0) + Selected(jobs[1..])
  }

  lemma {:induction false} FilesAccounting(s: SyncState, path: string, files: seq<FileJob>)
    ensures var m := SyncFiles(s, path, files).metrics;
            && m.processed - s.metrics.processed == m.downloaded - s.metrics.downloaded >= 0
            && m.skipped >= s.metrics.skipped
            && s.metrics.errors <= m.errors <= s.metrics.errors + 1
            && m.downloaded + m.skipped + m.errors <=
               s.metrics.downloaded + s.metrics.skipped + s.metrics.errors + |files|
            && (m.errors == s.metrics.errors ==>
                m.downloaded + m.skipped == s.metrics.downloaded + s.metrics.skipped + |files|)
    decreases |files|
  {
    if files != [] {
      var r := SyncFile(s.zone, path, files[0]);
      if r.outcome != Raised {
        FilesAccounting(SyncState(r.zone, Count(s.metrics, r.outcome)), path, files[1..]);
      }
    }
  }

  lemma {:induction false} AccountingFrom(s: SyncState, jobs: seq<MappingJob>)
    ensures var m := SyncAll(s, jobs).metrics;
            && m.processed - s.metrics.processed == m.downloaded - s.metrics.downloaded >= 0
            && s.metrics.errors <= m.errors <= s.metrics.errors + |jobs|
            && m.downloaded + m.skipped <= s.metrics.downloaded + s.metrics.skipped + Selected(jobs)
            && (m.errors == s.metrics.errors ==>
                m.downloaded + m.skipped == s.metrics.downloaded + s.metrics.skipped + Selected(jobs))
    decreases |jobs|
  {
    if jobs != [] {
      if jobs[0].files.Some? {
        FilesAccounting(s, jobs[0].schemaPath, jobs[0].files.value);
      }
      AccountingFrom(SyncMapping(s, jobs[0]), jobs[1..]);
    }
  }

  /** What becomes of one file: without an id it is skipped; a full disk or a failing check raises before anything else;
      a file already synced is skipped; any other is transferred, unless that raises. Only a transfer has effects: the
      object once the upload has landed, the row once the registration has. */
  lemma {:induction false} FileOutcomeExactly(zone: Zone, path: string, f: FileJob)
    ensures
      var r, key := SyncFile(zone, path, f), S3Key(path, f.name);
      var starts := f.hasId && f.fault !in {DiskFull, CheckFails} && !(KnownIn(zone, key, f.hash) && f.headSeen);
      && r.zone.s3 == (if starts && f.fault !in {DownloadFails, TempWriteFails, UploadFails}
                       then zone.s3[key := f.content] else zone.s3)
      && r.zone.registry == (if starts && f.fault in {NoFault, RegisterLandsButRaises}
                             then zone.registry[key := f.hash] else zone.registry)
    ensures
      var outcome, known := SyncFile(zone, path, f).outcome, KnownIn(zone, S3Key(path, f.name), f.hash) && f.headSeen;
      && (outcome == Raised <==> f.hasId && (f.fault in {DiskFull, CheckFails} || (f.fault != NoFault && !known)))
      && (outcome == Transferred <==> f.hasId && f.fault == NoFault && !known)
      && (outcome == Skipped <==> !f.hasId || (f.fault !in {DiskFull, CheckFails} && known))
  {
  }

  /** The row is registered under this hash, and the object is in S3. */
  predicate KnownIn(zone: Zone, key: Key, hash: Version) {
    key in zone.registry && zone.registry[key] == hash && key in zone.s3
  }

  /** File `i` raises, and no file of the mapping before it does. */
  predicate RaisesAt(s: SyncState, path: string, files: seq<FileJob>, i: nat)
    requires i < |files|
    decreases i
  {
    var r := SyncFile(s.zone, path, files[0]);
    if i == 0 then r.outcome == Raised
    else r.outcome != Raised && RaisesAt(SyncState(r.zone, Count(s.metrics, r.outcome)), path, files[1..], i - 1)
  }

  /** A mapping errs when listing its folder raises or the transfer of one of its files does. */
  ghost predicate Errs(s: SyncState, job: MappingJob) {
    job.files.None? || SomeRaises(s, job.schemaPath, job.files.value)
  }

  ghost predicate SomeRaises(s: SyncState, path: string, files: seq<FileJob>) {
    exists i: nat :: i < |files| && RaisesAt(s, path, files, i)
  }

  lemma {:induction false} FilesErr(s: SyncState, path: string, files: seq<FileJob>)
    ensures SyncFiles(s, path, files).metrics.errors ==
            s.metrics.errors + if SomeRaises(s, path, files) then 1 else 0
    decreases |files|
  {
    if files != [] {
      var r := SyncFile(s.zone, path, files[0]);
      var s' := SyncState(r.zone, Count(s.metrics, r.outcome));
      if r.outcome == Raised {
        assert RaisesAt(s, path, files, 0);
      } else {
        FilesErr(s', path, files[1..]);
        if i: nat :| i < |files| && RaisesAt(s, path, files, i) {
          assert RaisesAt(s', path, files[1..], i - 1);
        }
        if i: nat :| i < |files[1..]| && RaisesAt(s', path, files[1..], i) {
          assert RaisesAt(s, path, files, i + 1);
        }
      }
    }
  }

  /** A mapping that errs counts one error, and its listing if that is what fails changes nothing else. */
  lemma {:induction false} MappingErrs(s: SyncState, job: MappingJob)
    ensures SyncMapping(s, job).metrics.errors == s.metrics.errors + if Errs(s, job) then 1 else 0
    ensures job.files.None? ==> SyncMapping(s, job) == s.(metrics := s.metrics.(errors := s.metrics.errors + 1))
  {
    if job.files.Some? {
      FilesErr(s, job.schemaPath, job.files.value);
    }
  }

  /** What a mapping adds to the files downloaded or skipped. */
  function Handled(s: SyncState, job: MappingJob): int {
    var m := SyncMapping(s, job).metrics;
    (m.downloaded + m.skipped) - (s.metrics.downloaded + s.metrics.skipped)
  }

  ghost function ErringMappings(s: SyncState, jobs: seq<MappingJob>): nat
    decreases |jobs|
  {
    if jobs == [] then 0 else (if Errs(s, jobs[0]) then 1 else 0) + ErringMappings(SyncMapping(s, jobs[0]), jobs[1..])
  }

  /** The files of the error-free mappings: how many were downloaded or skipped, and how many were selected. */
  ghost function HandledWithoutError(s: SyncState, jobs: seq<MappingJob>): int
    decreases |jobs|
  {
    if jobs == [] then 0
    else (if Errs(s, jobs[0]) then 0 else Handled(s, jobs[0])) + HandledWithoutError(SyncMapping(s, jobs[0]), jobs[1..])
  }

  ghost function SelectedWithoutError(s: SyncState, jobs: seq<MappingJob>): nat
    decreases |jobs|
  {
    if jobs == [] then 0
    else
      (if Errs(s, jobs[0]) then 0 else Selected([jobs[0]]))
      + SelectedWithoutError(SyncMapping(s, jobs[0]), jobs[1..])
  }

  lemma {:induction false} ErrorFreeAccounting(s: SyncState, jobs: seq<MappingJob>)
    ensures var m := SyncAll(s, jobs).metrics;
            && m.errors == s.metrics.errors + ErringMappings(s, jobs)
            && HandledWithoutError(s, jobs) == SelectedWithoutError(s, jobs)
            && m.downloaded + m.skipped >= s.metrics.downloaded + s.metrics.skipped + SelectedWithoutError(s, jobs)
    decreases |jobs|
  {
    if jobs != [] {
      assert Selected([jobs[0]]) == if jobs[0].files.Some? then |jobs[0].files.value| else 0;
      MappingErrs(s, jobs[0]);
      if jobs[0].files.Some? {
        FilesAccounting(s, jobs[0].schemaPath, jobs[0].files.value);
      }
      ErrorFreeAccounting(SyncMapping(s, jobs[0]), jobs[1..]);
    }
  }

  /** Every run counts as many files processed as downloaded and one error per erring mapping. It downloads or skips
      exactly the selected files of the error-free mappings, and of all mappings at most the selected files. */
  lemma {:induction false} SyncAccounting(zone: Zone, jobs: seq<MappingJob>)
    ensures var s := SyncState(zone, NOTHING);
            var m := SyncAll(s, jobs).metrics;
            && m.processed == m.downloaded && m.errors == ErringMappings(s, jobs) <= |jobs|
            && HandledWithoutError(s, jobs) == SelectedWithoutError(s, jobs) <= m.downloaded + m.skipped <=
               Selected(jobs)
            && (m.errors == 0 ==> m.downloaded + m.skipped == Selected(jobs))
  {
    AccountingFrom(SyncState(zone, NOTHING), jobs);
    ErrorFreeAccounting(SyncState(zone, NOTHING), jobs);
  }

  // ---- Idempotence ----------------------------------------------------------------------------

  /** The files with an id, each with its S3 key and hash, in transfer order. */
  function Items(jobs: seq<MappingJob>): seq<Item> {
    if jobs == [] then []
    else (if jobs[0].files.Some? then FileItems(jobs[0].schemaPath, jobs[0].files.value) else []) + Items(jobs[1..])
  }

  function FileItems(path: string, files: seq<FileJob>): seq<Item> {
    if files == [] then []
    else
      (if files[0].hasId then [Item(S3Key(path, files[0].name), files[0].hash)] else [])
      + FileItems(path, files[1..])
  }

  /** The landing zone holds every item at the expected hash. */
  predicate Holds(zone: Zone, items: seq<Item>) {
    forall x :: x in items ==> x.key in zone.registry && zone.registry[x.key] == x.hash && x.key in zone.s3
  }

  /** No two selected files share an S3 key under different hashes. */
  predicate KeysClashFree(items: seq<Item>) {
    forall x, y :: x in items && y in items && x.key == y.key ==> x.hash == y.hash
  }

  /** What an error-free pass over the items leaves behind. */
  function Settle(zone: Zone, items: seq<Item>): map<Key, Version>
    decreases |items|
  {
    if items == [] then zone.registry
    else Settle(zone.(registry := zone.registry[items[0].key := items[0].hash]), items[1..])
  }

  predicate SameKeysIn(zone: Zone, items: seq<Item>) {
    forall x :: x in items ==> x.key in zone.s3
  }

  lemma {:induction false} SettleConcat(zone: Zone, a: seq<Item>, b: seq<Item>)
    ensures Settle(zone, a + b) == Settle(zone.(registry := Settle(zone, a)), b)
    decreases |a|
  {
    if a == [] {
      assert a + b == b;
    } else {
      assert (a + b)[1..] == a[1..] + b;
      SettleConcat(zone.(registry := zone.registry[a[0].key := a[0].hash]), a[1..], b);
    }
  }

  /** `Settle` looks only at the registry. */
  lemma {:induction false} SettleIgnoresStorage(a: Zone, b: Zone, items: seq<Item>)
    requires a.registry == b.registry
    ensures Settle(a, items) == Settle(b, items)
    decreases |items|
  {
    if items != [] {
      SettleIgnoresStorage(a.(registry := a.registry[items[0].key := items[0].hash]),
                           b.(registry := b.registry[items[0].key := items[0].hash]), items[1..]);
    }
  }

  lemma {:induction false} FilesSettle(s: SyncState, path: string, files: seq<FileJob>)
    requires SyncFiles(s, path, files).metrics.errors == s.metrics.errors
    ensures var z := SyncFiles(s, path, files).zone;
            && z.registry == Settle(s.zone, FileItems(path, files))
            && s.zone.s3.Keys <= z.s3.Keys && SameKeysIn(z, FileItems(path, files))
    decreases |files|
  {
    if files != [] {
      var f := files[0];
      var r := SyncFile(s.zone, path, f);
      var s' := SyncState(r.zone, Count(s.metrics, r.outcome));
      if r.outcome == Raised {
        assert false;
      }
      FilesSettle(s', path, files[1..]);
      var head := if f.hasId then [Item(S3Key(path, f.name), f.hash)] else [];
      SettleConcat(s.zone, head, FileItems(path, files[1..]));
      assert Settle(s.zone, head) == r.zone.registry by {
        if f.hasId {
          assert head[1..] == [];
          assert Settle(s.zone, head) ==
                 Settle(s.zone.(registry := s.zone.registry[head[0].key := head[0].hash]), head[1..]);
        }
      }
      SettleIgnoresStorage(r.zone, s.zone.(registry := r.zone.registry), FileItems(path, files[1..]));
    }
  }

  lemma {:induction false} AllSettle(s: SyncState, jobs: seq<MappingJob>)
    requires SyncAll(s, jobs).metrics.errors == s.metrics.errors
    ensures var z := SyncAll(s, jobs).zone;
            && z.registry == Settle(s.zone, Items(jobs))
            && s.zone.s3.Keys <= z.s3.Keys && SameKeysIn(z, Items(jobs))
    decreases |jobs|
  {
    if jobs != [] {
      var s' := SyncMapping(s, jobs[0]);
      AccountingFrom(s', jobs[1..]);
      if jobs[0].files.Some? {
        FilesAccounting(s, jobs[0].schemaPath, jobs[0].files.value);
        FilesSettle(s, jobs[0].schemaPath, jobs[0].files.value);
      }
      AllSettle(s', jobs[1..]);
      var head := if jobs[0].files.Some? then FileItems(jobs[0].schemaPath, jobs[0].files.value) else [];
      SettleConcat(s.zone, head, Items(jobs[1..]));
      SettleIgnoresStorage(s'.zone, s.zone.(registry := s'.zone.registry), Items(jobs[1..]));
    }
  }

  /** The registry ends with, for each key, the hash of the last item with that key. */
  lemma {:induction false} SettledValue(zone: Zone, items: seq<Item>, k: Key)
    ensures k in Settle(zone, items) <==> k in zone.registry || exists x :: x in items && x.key == k
    ensures (forall x :: x in items ==> x.key != k) && k in zone.registry ==> Settle(zone, items)[k] == zone.registry[k]
    ensures k in Settle(zone, items) && (exists x :: x in items && x.key == k) ==>
              exists x :: x in items && x.key == k && x.hash == Settle(zone, items)[k]
    decreases |items|
  {
    if items != [] {
      SettledValue(zone.(registry := zone.registry[items[0].key := items[0].hash]), items[1..], k);
      assert items == [items[0]] + items[1..];
    }
  }

  lemma {:induction false} HeldExactlyWhenClashFree(zone: Zone, items: seq<Item>, s3: map<Key, Version>)
    requires SameKeysIn(Zone(s3, zone.registry), items)
    ensures Holds(Zone(s3, Settle(zone, items)), items) <==> KeysClashFree(items)
  {
    forall x | x in items
      ensures x.key in Settle(zone, items)
      ensures exists y :: y in items && y.key == x.key && y.hash == Settle(zone, items)[x.key]
    {
      SettledValue(zone, items, x.key);
    }
  }

  /** The same selection, listed again with nothing failing. */
  predicate QuietRepeat(jobs: seq<MappingJob>, again: seq<MappingJob>) {
    && |jobs| == |again|
    && forall i :: 0 <= i < |jobs| ==>
         && again[i].schemaPath == jobs[i].schemaPath && jobs[i].files.Some? && again[i].files.Some?
         && QuietFiles(jobs[i].files.value, again[i].files.value)
  }

  predicate QuietFiles(files: seq<FileJob>, again: seq<FileJob>) {
    && |files| == |again|
    && forall i :: 0 <= i < |files| ==>
         && again[i].name == files[i].name && again[i].hasId == files[i].hasId && again[i].hash == files[i].hash
         && again[i].headSeen && again[i].fault == NoFault
  }

  lemma {:induction false} RepeatFileItems(path: string, files: seq<FileJob>, again: seq<FileJob>)
    requires QuietFiles(files, again)
    ensures FileItems(path, again) == FileItems(path, files)
  {
    if files != [] {
      RepeatFileItems(path, files[1..], again[1..]);
    }
  }

  lemma {:induction false} RepeatItems(jobs: seq<MappingJob>, again: seq<MappingJob>)
    requires QuietRepeat(jobs, again)
    ensures Items(again) == Items(jobs)
  {
    if jobs != [] {
      RepeatFileItems(jobs[0].schemaPath, jobs[0].files.value, again[0].files.value);
      RepeatItems(jobs[1..], again[1..]);
    }
  }

  predicate Quiet(files: seq<FileJob>) {
    forall f :: f in files ==> f.headSeen && f.fault == NoFault
  }

  /** A quiet pass over files downloads nothing exactly when the landing zone already holds them all; then nothing
      changes. */
  lemma {:induction false} QuietFilesPass(s: SyncState, path: string, files: seq<FileJob>)
    requires Quiet(files)
    ensures var r := SyncFiles(s, path, files);
            && r.metrics.errors == s.metrics.errors
            && (r.metrics.downloaded == s.metrics.downloaded <==> Holds(s.zone, FileItems(path, files)))
            && (r.metrics.downloaded == s.metrics.downloaded ==> r.zone == s.zone)
    decreases |files|
  {
    if files != [] {
      var f := files[0];
      assert f in files && forall g :: g in files[1..] ==> g in files;
      var r := SyncFile(s.zone, path, f);
      var s' := SyncState(r.zone, Count(s.metrics, r.outcome));
      QuietFilesPass(s', path, files[1..]);
      FilesAccounting(s', path, files[1..]);
      var head := if f.hasId then [Item(S3Key(path, f.name), f.hash)] else [];
      assert FileItems(path, files) == head + FileItems(path, files[1..]);
      if f.hasId {
        assert head[0] in FileItems(path, files);
      }
    }
  }

  lemma {:induction false} QuietPass(s: SyncState, jobs: seq<MappingJob>)
    requires forall j :: j in jobs ==> j.files.Some? && Quiet(j.files.value)
    ensures var r := SyncAll(s, jobs);
            && r.metrics.errors == s.metrics.errors
            && (r.metrics.downloaded == s.metrics.downloaded <==> Holds(s.zone, Items(jobs)))
            && (r.metrics.downloaded == s.metrics.downloaded ==> r.zone == s.zone)
    decreases |jobs|
  {
    if jobs != [] {
      assert jobs[0] in jobs && forall g :: g in jobs[1..] ==> g in jobs;
      var s' := SyncMapping(s, jobs[0]);
      QuietFilesPass(s, jobs[0].schemaPath, jobs[0].files.value);
      FilesAccounting(s, jobs[0].schemaPath, jobs[0].files.value);
      QuietPass(s', jobs[1..]);
      AccountingFrom(s', jobs[1..]);
      var head := FileItems(jobs[0].schemaPath, jobs[0].files.value);
      assert Items(jobs) == head + Items(jobs[1..]);
      assert Holds(s.zone, Items(jobs)) <==> Holds(s.zone, head) && Holds(s.zone, Items(jobs[1..]));
    }
  }

  /** After an error-free sync, repeating it against an unchanged remote downloads nothing exactly when no two selected
      files share an S3 key under different hashes; then every file is skipped and nothing changes. */
  lemma {:induction false} SecondSyncSkipsExactly(zone: Zone, jobs: seq<MappingJob>, again: seq<MappingJob>)
    requires QuietRepeat(jobs, again)
    requires SyncAll(SyncState(zone, NOTHING), jobs).metrics.errors == 0
    ensures var first := SyncAll(SyncState(zone, NOTHING), jobs);
            var second := SyncAll(SyncState(first.zone, NOTHING), again);
            && second.metrics.errors == 0
            && (second.metrics.downloaded == 0 <==> KeysClashFree(Items(jobs)))
            && (second.metrics.downloaded == 0 ==>
                second.zone == first.zone && second.metrics.skipped == Selected(again))
  {
    var first := SyncAll(SyncState(zone, NOTHING), jobs);
    AllSettle(SyncState(zone, NOTHING), jobs);
    RepeatItems(jobs, again);
    forall j | j in again ensures j.files.Some? && Quiet(j.files.value) {
      var i :| 0 <= i < |again| && again[i] == j;
      assert again[i].files.Some? && QuietFiles(jobs[i].files.value, again[i].files.value);
    }
    QuietPass(SyncState(first.zone, NOTHING), again);
    HeldExactlyWhenClashFree(zone, Items(jobs), first.zone.s3);
    SyncAccounting(first.zone, again);
  }

  // ---- Keys -----------------------------------------------------------------------------------

  lemma {:induction false} NoSlashBehind(a: string, m: string, i: nat)
    requires SlashFree(m) && |a| < i < |a + "/" + m|
    ensures (a + "/" + m)[i] != '/'
  {
    assert (a + "/" + m)[i] == m[i - |a| - 1];
  }

  lemma {:induction false} SlashAt(a: string, m: string)
    ensures (a + "/" + m)[|a|] == '/'
  {
  }

  /** S3 keys are distinct for distinct stripped paths or distinct file names. */
  lemma {:induction false} S3KeyInjective(p: string, q: string, m: string, n: string)
    requires SlashFree(m) && SlashFree(n)
    ensures S3Key(p, m) == S3Key(q, n) <==> Strip(p, '/') == Strip(q, '/') && m == n
  {
    var a, b := Strip(p, '/'), Strip(q, '/');
    var k, l := a + "/" + m, b + "/" + n;
    if k == l {
      if |a| < |b| {
        NoSlashBehind(a, m, |b|);
        SlashAt(b, n);
      } else if |b| < |a| {
        NoSlashBehind(b, n, |a|);
        SlashAt(a, m);
      } else {
        assert k[..|a|] == a && l[..|b|] == b && k[|a| + 1..] == m && l[|b| + 1..] == n;
      }
    }
  }

  /** Two files with an id that go to the same directory under the same name have the same hash. */
  ghost predicate NamesClashFree(jobs: seq<MappingJob>) {
    forall i, j, a, b :: HasFile(jobs, i, a) && HasFile(jobs, j, b) && SameTarget(jobs, i, a, j, b) ==>
                           FileOf(jobs, i, a).hash == FileOf(jobs, j, b).hash
  }

  predicate HasFile(jobs: seq<MappingJob>, i: int, a: int) {
    0 <= i < |jobs| && jobs[i].files.Some? && 0 <= a < |jobs[i].files.value| && jobs[i].files.value[a].hasId
  }

  function FileOf(jobs: seq<MappingJob>, i: int, a: int): FileJob
    requires HasFile(jobs, i, a)
  {
    jobs[i].files.value[a]
  }

  predicate SameTarget(jobs: seq<MappingJob>, i: int, a: int, j: int, b: int)
    requires HasFile(jobs, i, a) && HasFile(jobs, j, b)
  {
    Strip(jobs[i].schemaPath, '/') == Strip(jobs[j].schemaPath, '/') &&
    FileOf(jobs, i, a).name == FileOf(jobs, j, b).name
  }

  function ItemOf(jobs: seq<MappingJob>, i: int, a: int): Item
    requires HasFile(jobs, i, a)
  {
    Item(S3Key(jobs[i].schemaPath, FileOf(jobs, i, a).name), FileOf(jobs, i, a).hash)
  }

  lemma {:induction false} FileItemsAre(path: string, files: seq<FileJob>, x: Item)
    ensures x in FileItems(path, files) <==>
            exists a :: 0 <= a < |files| && files[a].hasId && x == Item(S3Key(path, files[a].name), files[a].hash)
  {
    if files != [] {
      FileItemsAre(path, files[1..], x);
      if a :| 0 <= a < |files| && files[a].hasId && x == Item(S3Key(path, files[a].name), files[a].hash) {
        assert a > 0 ==> files[1..][a - 1] == files[a];
      }
      if a :| 0 <= a < |files[1..]| && files[1..][a].hasId &&
              x == Item(S3Key(path, files[1..][a].name), files[1..][a].hash)
      {
        assert files[a + 1] == files[1..][a];
      }
    }
  }

  lemma {:induction false} ItemsAre(jobs: seq<MappingJob>, x: Item)
    ensures x in Items(jobs) <==> exists i, a :: HasFile(jobs, i, a) && x == ItemOf(jobs, i, a)
  {
    if jobs != [] {
      var rest := jobs[1..];
      ItemsAre(rest, x);
      if jobs[0].files.Some? {
        FileItemsAre(jobs[0].schemaPath, jobs[0].files.value, x);
        if a :| 0 <= a < |jobs[0].files.value| && jobs[0].files.value[a].hasId &&
                x == Item(S3Key(jobs[0].schemaPath, jobs[0].files.value[a].name), jobs[0].files.value[a].hash)
        {
          assert HasFile(jobs, 0, a) && x == ItemOf(jobs, 0, a);
        }
      }
      if i, a :| HasFile(jobs, i, a) && x == ItemOf(jobs, i, a) && i > 0 {
        assert HasFile(rest, i - 1, a) && x == ItemOf(rest, i - 1, a);
      }
      if i, a :| HasFile(rest, i, a) && x == ItemOf(rest, i, a) {
        assert HasFile(jobs, i + 1, a) && x == ItemOf(jobs, i + 1, a);
      }
    }
  }

  /** For slash-free file names, S3 keys clash exactly when two files of one directory share a name under different
      hashes. */
  lemma {:induction false} KeysClashExactly(jobs: seq<MappingJob>)
    requires forall i, a :: HasFile(jobs, i, a) ==> SlashFree(FileOf(jobs, i, a).name)
    ensures KeysClashFree(Items(jobs)) <==> NamesClashFree(jobs)
  {
    forall i, j, a, b | HasFile(jobs, i, a) && HasFile(jobs, j, b)
      ensures ItemOf(jobs, i, a) in Items(jobs)
      ensures ItemOf(jobs, i, a).key == ItemOf(jobs, j, b).key <==> SameTarget(jobs, i, a, j, b)
    {
      ItemsAre(jobs, ItemOf(jobs, i, a));
      S3KeyInjective(jobs[i].schemaPath, jobs[j].schemaPath, FileOf(jobs, i, a).name, FileOf(jobs, j, b).name);
    }
    forall x | x in Items(jobs) ensures exists i, a :: HasFile(jobs, i, a) && x == ItemOf(jobs, i, a) {
      ItemsAre(jobs, x);
    }
    if NamesClashFree(jobs) {
      forall x, y | x in Items(jobs) && y in Items(jobs) && x.key == y.key ensures x.hash == y.hash {
        var i, a :| HasFile(jobs, i, a) && x == ItemOf(jobs, i, a);
        var j, b :| HasFile(jobs, j, b) && y == ItemOf(jobs, j, b);
      }
    }
    if KeysClashFree(Items(jobs)) {
      forall i, j, a, b | HasFile(jobs, i, a) && HasFile(jobs, j, b) &&
                          ItemOf(jobs, i, a).key == ItemOf(jobs, j, b).key
        ensures FileOf(jobs, i, a).hash == FileOf(jobs, j, b).hash
      {
        assert ItemOf(jobs, i, a) in Items(jobs) && ItemOf(jobs, j, b) in Items(jobs);
      }
    }
  }

  /** No two mappings go to the same directory, and no mapping lists two files of one name. */
  ghost predicate DirectoriesAndNamesDistinct(jobs: seq<MappingJob>) {
    && (forall i, j :: 0 <= i < j < |jobs| ==> Strip(jobs[i].schemaPath, '/') != Strip(jobs[j].schemaPath, '/'))
    && (forall i, a, b :: HasFile(jobs, i, a) && HasFile(jobs, i, b) && a < b ==>
        FileOf(jobs, i, a).name != FileOf(jobs, i, b).name)
    && (forall i, a :: HasFile(jobs, i, a) ==> SlashFree(FileOf(jobs, i, a).name))
  }

  /** So where mappings go to distinct directories and list distinct names, repeating an error-free sync downloads
      nothing, skips every file and changes nothing. */
  lemma {:induction false} SecondSyncDownloadsNothing(zone: Zone, jobs: seq<MappingJob>, again: seq<MappingJob>)
    requires QuietRepeat(jobs, again) && DirectoriesAndNamesDistinct(jobs)
    requires SyncAll(SyncState(zone, NOTHING), jobs).metrics.errors == 0
    ensures var first := SyncAll(SyncState(zone, NOTHING), jobs);
            var second := SyncAll(SyncState(first.zone, NOTHING), again);
            second == SyncState(first.zone, Metrics(0, 0, Selected(again), 0))
  {
    KeysClashExactly(jobs);
    SecondSyncSkipsExactly(zone, jobs, again);
    SyncAccounting(SyncAll(SyncState(zone, NOTHING), jobs).zone, again);
  }

  // ---- The engine only takes protocol steps ---------------------------------------------------

  /** The protocol steps by which a file is synced. */
  function StepsOf(zone: Zone, path: string, f: FileJob): seq<Step> {
    var item := Item(S3Key(path, f.name), f.hash);
    if !f.hasId then [Skip(false)] + []
    else if f.fault == DiskFull || f.fault == CheckFails then [ProducerStops] + []
    else if AlreadySynced(zone.registry, zone.s3, item, f.headSeen) then [Skip(true)] + []
    else [Download(f.headSeen)] + AfterDownload(f.fault)
  }

  function AfterDownload(fault: Fault): seq<Step> {
    if Uploads(fault) then [Step.Upload] + AfterUpload(fault) else [ProducerStops] + []
  }

  function AfterUpload(fault: Fault): seq<Step> {
    if Registers(fault) then [Step.Register] + (if fault == NoFault then [] else [ProducerStops] + [])
    else [ProducerStops] + []
  }

  /** Syncing one file is a run of the protocol, so the protocol's theorems hold between any two of its effects. */
  lemma {:induction false} SyncFileIsProtocolRun(s: State, path: string, f: FileJob, todo: seq<Item>)
    requires s.producer == Listed([Item(S3Key(path, f.name), f.hash)] + todo)
    requires S3Key(path, f.name) in s.remote && s.remote[S3Key(path, f.name)] == f.content
    ensures var r := SyncFile(Zone(s.s3, s.registry), path, f);
            Run(s, StepsOf(Zone(s.s3, s.registry), path, f)) ==
            Some(s.(s3 := r.zone.s3, registry := r.zone.registry, producer := if r.outcome == Raised then Idle
                    else Listed(todo)))
  {
    var zone := Zone(s.s3, s.registry);
    assert s.producer.todo[1..] == todo;
    RunCons(s, Skip(f.hasId), []);
    RunCons(s, ProducerStops, []);
    if f.hasId && f.fault !in {DiskFull, CheckFails} &&
       !AlreadySynced(zone.registry, zone.s3, s.producer.todo[0], f.headSeen)
    {
      var s1 := Next(s, Download(f.headSeen)).value;
      var s2 := Next(s1, Step.Upload).value;
      var s3 := Next(s2, Step.Register).value;
      RunCons(s, Download(f.headSeen), AfterDownload(f.fault));
      RunCons(s1, ProducerStops, []);
      RunCons(s1, Step.Upload, AfterUpload(f.fault));
      RunCons(s2, ProducerStops, []);
      RunCons(s2, Step.Register, if f.fault == NoFault then [] else [ProducerStops] + []);
      RunCons(s3, ProducerStops, []);
    }
  }

  /** Everything a mapping lists, whether or not it has an id. */
  function TodoOf(path: string, files: seq<FileJob>): (todo: seq<Item>)
    ensures |todo| == |files|
  {
    seq(|files|, i requires 0 <= i < |files| => Item(S3Key(path, files[i].name), files[i].hash))
  }

  type Remote = map<Key, Version>

  /** The remote moves on while the sync works: from what it was before a file to what it was when the file was, or
      would have been, downloaded. */
  predicate Downloads(before: Remote, path: string, files: seq<FileJob>, views: seq<Remote>)
    decreases |files|
  {
    && |views| == |files|
    && (files != [] ==>
          && NoNewer(before, views[0])
          && S3Key(path, files[0].name) in views[0] && views[0][S3Key(path, files[0].name)] == files[0].content
          && Downloads(views[0], path, files[1..], views[1..]))
  }

  function LastView(before: Remote, views: seq<Remote>): Remote {
    if views == [] then before else views[|views| - 1]
  }

  lemma {:induction false} NoNewerChain(a: Remote, b: Remote, c: Remote)
    requires NoNewer(a, b) && NoNewer(b, c)
    ensures NoNewer(a, c)
  {
    forall k | k in a ensures AtLeast(c, k, a[k]) {
      assert AtLeast(b, k, a[k]) && AtLeast(c, k, b[k]);
    }
  }

  lemma {:induction false} DownloadsGrow(before: Remote, path: string, files: seq<FileJob>, views: seq<Remote>)
    requires Downloads(before, path, files, views)
    ensures NoNewer(before, LastView(before, views))
    decreases |files|
  {
    if files != [] {
      DownloadsGrow(views[0], path, files[1..], views[1..]);
      NoNewerChain(before, views[0], LastView(before, views));
    }
  }

  function Behind(a: Remote, b: Remote): set<Key> {
    set k | k in b && (k !in a || a[k] != b[k])
  }

  /** The remote gets from one state to a later one by changes of single files. */
  lemma {:induction false} RemoteReaches(s: State, to: Remote) returns (steps: seq<Step>)
    requires NoNewer(s.remote, to)
    ensures Run(s, steps) == Some(s.(remote := to))
    decreases Behind(s.remote, to)
  {
    if s.remote == to {
      steps := [];
    } else {
      var k := SomeChange(s.remote, to);
      var s' := s.(remote := s.remote[k := to[k]]);
      var change := RemoteChange(k, to[k]);
      assert AtLeast(to, k, if k in s.remote then s.remote[k] else to[k]);
      assert Next(s, change) == Some(s');
      assert k in Behind(s.remote, to) && Behind(s'.remote, to) == Behind(s.remote, to) - {k};
      var rest := RemoteReaches(s', to);
      steps := [change] + rest;
      RunCons(s, change, rest);
    }
  }

  lemma {:induction false} SomeChange(a: Remote, b: Remote) returns (k: Key)
    requires NoNewer(a, b) && a != b
    ensures k in b && (k !in a || a[k] != b[k])
  {
    NothingBehind(a, b);
    k :| k in Behind(a, b);
  }

  lemma {:induction false} NothingBehind(a: Remote, b: Remote)
    requires NoNewer(a, b)
    ensures Behind(a, b) == {} ==> a == b
  {
    if Behind(a, b) == {} {
      forall j | j in b ensures j in a && a[j] == b[j] {
        assert j !in Behind(a, b);
      }
      assert forall j :: j in a ==> AtLeast(b, j, a[j]);
    }
  }

  function WithZone(s: State, remote: Remote, zone: Zone): State {
    s.(remote := remote, s3 := zone.s3, registry := zone.registry, producer := Idle)
  }

  lemma {:induction false} SyncFilesIsProtocolRun(s: State, m: Metrics, path: string, files: seq<FileJob>,
                                                  views: seq<Remote>)
    returns (steps: seq<Step>, now: Remote)
    requires s.producer == Listed(TodoOf(path, files)) && Downloads(s.remote, path, files, views)
    ensures Run(s, steps) == Some(WithZone(s, now, SyncFiles(SyncState(Zone(s.s3, s.registry), m), path, files).zone))
    ensures NoNewer(s.remote, now) && NoNewer(now, LastView(s.remote, views))
    decreases |files|
  {
    if files == [] {
      steps, now := [ProducerStops] + [], s.remote;
      RunCons(s, ProducerStops, []);
    } else {
      var f, rest, zone := files[0], TodoOf(path, files[1..]), Zone(s.s3, s.registry);
      assert TodoOf(path, files) == [Item(S3Key(path, f.name), f.hash)] + rest;
      var moves := RemoteReaches(s, views[0]);
      var s0 := s.(remote := views[0]);
      var r := SyncFile(zone, path, f);
      SyncFileIsProtocolRun(s0, path, f, rest);
      RunConcat(s, moves, StepsOf(zone, path, f));
      steps, now := moves + StepsOf(zone, path, f), views[0];
      DownloadsGrow(views[0], path, files[1..], views[1..]);
      if r.outcome != Raised {
        var s' := Run(s, steps).value;
        var more;
        more, now := SyncFilesIsProtocolRun(s', Count(m, r.outcome), path, files[1..], views[1..]);
        RunConcat(s, steps, more);
        steps := steps + more;
        NoNewerChain(s.remote, views[0], now);
      }
    }
  }

  /** What the remote was when a mapping's listing was complete, and at each of its downloads. */
  datatype Watch = Watch(listing: Remote, downloads: seq<Remote>)

  /** The remote only moves on, each listed version has been there, and each download brings what is there. */
  predicate Watched(before: Remote, jobs: seq<MappingJob>, ws: seq<Watch>)
    decreases |jobs|
  {
    && |ws| == |jobs|
    && (jobs != [] && jobs[0].files.None? ==> Watched(before, jobs[1..], ws[1..]))
    && (jobs != [] && jobs[0].files.Some? ==>
          && NoNewer(before, ws[0].listing)
          && (forall f :: f in jobs[0].files.value ==>
              AtLeast(ws[0].listing, S3Key(jobs[0].schemaPath, f.name), f.hash))
          && Downloads(ws[0].listing, jobs[0].schemaPath, jobs[0].files.value, ws[0].downloads)
          && Watched(LastView(ws[0].listing, ws[0].downloads), jobs[1..], ws[1..]))
  }

  lemma {:induction false} WatchedEarlier(before: Remote, later: Remote, jobs: seq<MappingJob>, ws: seq<Watch>)
    requires NoNewer(before, later) && Watched(later, jobs, ws)
    ensures Watched(before, jobs, ws)
    decreases |jobs|
  {
    if jobs != [] {
      if jobs[0].files.None? {
        WatchedEarlier(before, later, jobs[1..], ws[1..]);
      } else {
        NoNewerChain(before, later, ws[0].listing);
      }
    }
  }

  lemma {:induction false} SyncMappingIsProtocolRun(s: State, m: Metrics, job: MappingJob, w: Watch)
    returns (steps: seq<Step>, now: Remote)
    requires s.producer == Idle && job.files.Some? && NoNewer(s.remote, w.listing)
    requires forall f :: f in job.files.value ==> AtLeast(w.listing, S3Key(job.schemaPath, f.name), f.hash)
    requires Downloads(w.listing, job.schemaPath, job.files.value, w.downloads)
    ensures Run(s, steps) == Some(WithZone(s, now, SyncMapping(SyncState(Zone(s.s3, s.registry), m), job).zone))
    ensures NoNewer(now, LastView(w.listing, w.downloads))
  {
    var todo := TodoOf(job.schemaPath, job.files.value);
    var s0 := s.(remote := w.listing);
    var moves := RemoteReaches(s, w.listing);
    forall x | x in todo ensures x.key in s0.remote && x.hash <= s0.remote[x.key] {
      var i :| 0 <= i < |todo| && todo[i] == x;
      assert job.files.value[i] in job.files.value;
    }
    var listed := s0.(producer := Listed(todo));
    assert Next(s0, ListFiles(todo)) == Some(listed);
    var more;
    more, now := SyncFilesIsProtocolRun(listed, m, job.schemaPath, job.files.value, w.downloads);
    RunCons(s0, ListFiles(todo), more);
    RunConcat(s, moves, [ListFiles(todo)] + more);
    steps := moves + ([ListFiles(todo)] + more);
  }

  /** A whole sync, while the remote moves on, is a run of the protocol: whatever raises, each of its intermediate
      states is one the protocol's theorems speak of. */
  lemma {:induction false} SyncIsProtocolRun(s: State, m: Metrics, jobs: seq<MappingJob>, ws: seq<Watch>)
    returns (steps: seq<Step>, now: Remote)
    requires s.producer == Idle && Watched(s.remote, jobs, ws)
    ensures Run(s, steps) == Some(WithZone(s, now, SyncAll(SyncState(Zone(s.s3, s.registry), m), jobs).zone))
    decreases |jobs|
  {
    steps, now := [], s.remote;
    if jobs != [] {
      var before := SyncState(Zone(s.s3, s.registry), m);
      var after := SyncMapping(before, jobs[0]);
      if jobs[0].files.Some? {
        steps, now := SyncMappingIsProtocolRun(s, m, jobs[0], ws[0]);
        WatchedEarlier(now, LastView(ws[0].listing, ws[0].downloads), jobs[1..], ws[1..]);
      }
      assert Run(s, steps) == Some(WithZone(s, now, after.zone));
      var rest;
      rest, now := SyncIsProtocolRun(WithZone(s, now, after.zone), after.metrics, jobs[1..], ws[1..]);
      RunConcat(s, steps, rest);
      steps := steps + rest;
    }
  }
}
