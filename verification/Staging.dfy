/** The staging job: sort pending rows into contract groups, then merge and log group by group. */
module Staging {
  import opened Prelude
  import opened Protocol
  import opened Routing

  /** A row of the pending query. */
  datatype LandingRow = LandingRow(key: Key, hash: Version, size: nat)

  datatype IngestibleFile = IngestibleFile(key: Key, hash: Version, size: nat, domain: string, contract: string)

  /** The files of one contract, in the order they came up. */
  datatype Batch = Batch(contract: string, files: seq<IngestibleFile>)

  // ---- Grouping -------------------------------------------------------------------------------

  function FileOf(c: Classifier, row: LandingRow): Option<IngestibleFile> {
    match Route(c, row.key)
    case Routed(contract, domain) => Some(IngestibleFile(row.key, row.hash, row.size, domain, contract))
    case _ => None
  }

  /** `setdefault(contract, []).append(file)` on a dictionary that remembers insertion order. */
  function AddFile(batches: seq<Batch>, f: IngestibleFile): seq<Batch> {
    if batches == [] then [Batch(f.contract, [f])]
    else if batches[0].contract == f.contract then [Batch(f.contract, batches[0].files + [f])] + batches[1..]
    else [batches[0]] + AddFile(batches[1..], f)
  }

  function GroupRows(c: Classifier, rows: seq<LandingRow>): seq<Batch> {
    if rows == [] then []
    else
      var f := FileOf(c, rows[|rows| - 1]);
      var before := GroupRows(c, rows[..|rows| - 1]);
      if f.Some? then AddFile(before, f.value) else before
  }

  /** `get_incremental_files_to_ingest`. */
  method GetIncrementalFilesToIngest(c: Classifier, rows: seq<LandingRow>) returns (batches: seq<Batch>)
    ensures batches == GroupRows(c, rows)
  {
    batches := [];
    for i := 0 to |rows|
      invariant batches == GroupRows(c, rows[..i])
    {
      assert rows[..i + 1][..i] == rows[..i];
      match Route(c, rows[i].key) {
        case Malformed => continue;
        case Unclassified => continue;
        case Bypassed => continue;
        case Routed(contract, domain) =>
          batches := AddFile(batches, IngestibleFile(rows[i].key, rows[i].hash, rows[i].size, domain, contract));
      }
    }
    assert rows[..|rows|] == rows;
  }

  /** The rows routed to a contract, in query order: key, hash, size, and the domain and contract of the verdict. */
  function FilesFor(c: Classifier, rows: seq<LandingRow>, contract: string): seq<IngestibleFile> {
    if rows == [] then []
    else
      var row := rows[|rows| - 1];
      FilesFor(c, rows[..|rows| - 1], contract)
      + match Route(c, row.key)
        case Routed(name, domain) =>
          if name == contract then [IngestibleFile(row.key, row.hash, row.size, domain, name)] else []
        case _ => []
  }

  predicate Passes(c: Classifier, row: LandingRow) {
    Route(c, row.key).Routed?
  }

  /** The contracts of the routed rows, each where it first comes up. */
  function ContractsInOrder(c: Classifier, rows: seq<LandingRow>): seq<string> {
    if rows == [] then []
    else
      var before, v := ContractsInOrder(c, rows[..|rows| - 1]), Route(c, rows[|rows| - 1].key);
      if v.Routed? && v.contract !in before then before + [v.contract] else before
  }

  function ContractsOf(batches: seq<Batch>): (names: seq<string>)
    ensures |names| == |batches|
  {
    seq(|batches|, i requires 0 <= i < |batches| => batches[i].contract)
  }

  /** What the dictionary holds under a contract; empty when the key is absent. */
  function Under(batches: seq<Batch>, contract: string): seq<IngestibleFile> {
    if batches == [] then []
    else if batches[0].contract == contract then batches[0].files
    else Under(batches[1..], contract)
  }

  predicate IsDictionary(batches: seq<Batch>) {
    && (forall i, j :: 0 <= i < j < |batches| ==> batches[i].contract != batches[j].contract)
    && (forall b :: b in batches ==> b.files != [] && Under(batches, b.contract) == b.files)
  }

  function FileCount(batches: seq<Batch>): nat {
    if batches == [] then 0 else |batches[0].files| + FileCount(batches[1..])
  }

  function DroppedCount(c: Classifier, rows: seq<LandingRow>): nat {
    if rows == [] then 0
    else DroppedCount(c, rows[..|rows| - 1]) + if Passes(c, rows[|rows| - 1]) then 0 else 1
  }

  lemma {:induction false} AddFileUnder(batches: seq<Batch>, f: IngestibleFile, contract: string)
    ensures Under(AddFile(batches, f), contract) == Under(batches, contract) + if f.contract == contract then [f]
            else []
    ensures FileCount(AddFile(batches, f)) == FileCount(batches) + 1
  {
    if batches != [] && batches[0].contract != f.contract {
      AddFileUnder(batches[1..], f, contract);
    }
  }

  /** No contract twice, and no batch empty. */
  predicate Distinct(batches: seq<Batch>) {
    batches == [] ||
    (batches[0].files != [] && (forall b :: b in batches[1..] ==> b.contract != batches[0].contract) &&
     Distinct(batches[1..]))
  }

  lemma {:induction false} AddFileDistinct(batches: seq<Batch>, f: IngestibleFile)
    requires Distinct(batches)
    ensures Distinct(AddFile(batches, f))
    ensures forall b :: b in AddFile(batches, f) ==> b.contract == f.contract || b in batches
  {
    if batches != [] {
      assert batches == [batches[0]] + batches[1..];
      if batches[0].contract != f.contract {
        AddFileDistinct(batches[1..], f);
      }
    }
  }

  lemma {:induction false} DistinctIsDictionary(batches: seq<Batch>)
    requires Distinct(batches)
    ensures IsDictionary(batches)
  {
    if batches != [] {
      DistinctIsDictionary(batches[1..]);
      assert batches == [batches[0]] + batches[1..];
      forall j | 0 < j < |batches| ensures batches[j].contract != batches[0].contract {
        assert batches[j] == batches[1..][j - 1];
      }
    }
  }

  lemma {:induction false} AddFileOrder(batches: seq<Batch>, f: IngestibleFile)
    ensures ContractsOf(AddFile(batches, f)) ==
            ContractsOf(batches) + if f.contract in ContractsOf(batches) then [] else [f.contract]
  {
    if batches != [] {
      assert ContractsOf(batches) == [batches[0].contract] + ContractsOf(batches[1..]);
      if batches[0].contract != f.contract {
        AddFileOrder(batches[1..], f);
        assert AddFile(batches, f) == [batches[0]] + AddFile(batches[1..], f);
        assert ContractsOf(AddFile(batches, f)) == [batches[0].contract] + ContractsOf(AddFile(batches[1..], f));
      }
    }
  }

  /** The groups are exactly the contracts some row is routed to, in the order in which they first come up. */
  lemma {:induction false} GroupsInOrder(c: Classifier, rows: seq<LandingRow>)
    ensures ContractsOf(GroupRows(c, rows)) == ContractsInOrder(c, rows)
  {
    if rows != [] {
      GroupsInOrder(c, rows[..|rows| - 1]);
      var f := FileOf(c, rows[|rows| - 1]);
      if f.Some? {
        AddFileOrder(GroupRows(c, rows[..|rows| - 1]), f.value);
      }
    }
  }

  /** Conservation: the groups partition the rows that pass the gates, each group in query order, and every other row is
      accounted for as dropped. */
  lemma {:induction false} GroupingConserves(c: Classifier, rows: seq<LandingRow>, contract: string)
    ensures var batches := GroupRows(c, rows);
            && Distinct(batches) && IsDictionary(batches)
            && Under(batches, contract) == FilesFor(c, rows, contract)
            && FileCount(batches) + DroppedCount(c, rows) == |rows|
  {
    if rows != [] {
      var before := rows[..|rows| - 1];
      GroupingConserves(c, before, contract);
      var f := FileOf(c, rows[|rows| - 1]);
      if f.Some? {
        AddFileUnder(GroupRows(c, before), f.value, contract);
        AddFileDistinct(GroupRows(c, before), f.value);
      }
    }
    DistinctIsDictionary(GroupRows(c, rows));
  }

  /** Each group holds exactly the rows routed to its contract, in query order. */
  lemma {:induction false} GroupsExactly(c: Classifier, rows: seq<LandingRow>)
    ensures forall b :: b in GroupRows(c, rows) ==> b.files == FilesFor(c, rows, b.contract)
  {
    forall b | b in GroupRows(c, rows) ensures b.files == FilesFor(c, rows, b.contract) {
      GroupingConserves(c, rows, b.contract);
    }
  }

  // ---- The job --------------------------------------------------------------------------------

  datatype LoadOutcome = Loaded | LoadFails | MergeLandsButFails
  datatype CommitOutcome = Lands | NeverLands | LandsButRaises

  /** How one group's turn goes: its timestamp, reading and merging, and the two commits it may make. */
  datatype Play = Play(at: int, load: LoadOutcome, success: CommitOutcome, failure: CommitOutcome)

  datatype Tally = Tally(attempts: seq<Attempt>, processed: nat, failed: nat, completed: bool)

  function ItemsOf(files: seq<IngestibleFile>): (items: seq<Item>)
    ensures |items| == |files|
  {
    seq(|files|, i requires 0 <= i < |files| => Item(files[i].key, files[i].hash))
  }

  predicate Succeeds(p: Play) {
    p.load == Loaded && p.success == Lands
  }

  /** The rows a group's turn adds to the attempt log. */
  function Entries(b: Batch, p: Play): seq<Attempt> {
    var items := ItemsOf(b.files);
    (if p.load == Loaded && p.success != NeverLands then Log(items, p.at, true) else [])
    + (if !Succeeds(p) && p.failure != NeverLands then Log(items, p.at, false) else [])
  }

  function RunBatch(t: Tally, b: Batch, p: Play): Tally {
    Tally(t.attempts + Entries(b, p),
          if Succeeds(p) then t.processed + |b.files| else t.processed,
          if Succeeds(p) then t.failed else t.failed + |b.files|,
          Succeeds(p) || p.failure == Lands)
  }

  /** Group after group, until a failed commit of a failure log ends the job. */
  function RunBatches(t: Tally, batches: seq<Batch>, plays: seq<Play>): Tally
    requires |plays| == |batches|
    decreases |batches|
  {
    if batches == [] then t
    else
      var t' := RunBatch(t, batches[0], plays[0]);
      if t'.completed then RunBatches(t', batches[1..], plays[1..]) else t'
  }

  class LakehouseRegistry {
    var attempts: seq<Attempt>

    method Commit(items: seq<Item>, at: int, success: bool, outcome: CommitOutcome) returns (raised: bool)
      modifies this
      ensures raised <==> outcome != Lands
      ensures attempts == old(attempts) + if outcome == NeverLands then [] else Log(items, at, success)
    {
      raised := outcome != Lands;
      if outcome != NeverLands {
        var i := 0;
        while i < |items|
          invariant 0 <= i <= |items|
          invariant attempts == old(attempts) + Log(items, at, success)[..i]
        {
          attempts := attempts + [Attempt(items[i].key, items[i].hash, at, success)];
          i := i + 1;
        }
      }
    }

    /** One group's turn: the success log, or the failure log when anything raised. */
    method IngestBatch(b: Batch, play: Play, processed: nat, failed: nat)
      returns (processed': nat, failed': nat, completed: bool)
      modifies this
      ensures Tally(attempts, processed', failed', completed) ==
              RunBatch(Tally(old(attempts), processed, failed, true), b, play)
    {
      TurnCases(attempts, b, play);
      var items := ItemsOf(b.files);
      var raised := play.load != Loaded;
      if !raised {
        raised := Commit(items, play.at, true, play.success);
      }
      if !raised {
        return processed + |b.files|, failed, true;
      }
      var fatal := Commit(items, play.at, false, play.failure);
      return processed, failed + |b.files|, !fatal;
    }

    /** The loop of the job over its groups. */
    method IngestLandingCsvToLakehouse(batches: seq<Batch>, plays: seq<Play>)
      returns (processed: nat, failed: nat, completed: bool)
      requires |plays| == |batches|
      modifies this
      ensures Tally(attempts, processed, failed, completed) ==
              RunBatches(Tally(old(attempts), 0, 0, true), batches, plays)
    {
      processed, failed, completed := 0, 0, true;
      var i := 0;
      ghost var start := Tally(attempts, 0, 0, true);
      while i < |batches| && completed
        invariant 0 <= i <= |batches|
        invariant var t := Tally(attempts, processed, failed, completed);
                  RunBatches(start, batches, plays) == if completed then RunBatches(t, batches[i..], plays[i..]) else t
      {
        assert batches[i..][1..] == batches[i + 1..] && plays[i..][1..] == plays[i + 1..];
        processed, failed, completed := IngestBatch(batches[i], plays[i], processed, failed);
        i := i + 1;
      }
    }
  }

  /** What the log holds after the success commit, and after the failure commit. */
  lemma {:induction false} TurnCases(attempts: seq<Attempt>, b: Batch, p: Play)
    ensures var items := ItemsOf(b.files);
            var first := attempts + if p.load != Loaded || p.success == NeverLands then [] else Log(items, p.at, true);
            attempts + Entries(b, p) ==
            if Succeeds(p) then first else first + if p.failure == NeverLands then [] else Log(items, p.at, false)
  {
  }

  // ---- Accounting -----------------------------------------------------------------------------

  /** The (key, hash) pairs of all groups, in processing order. */
  function AllItems(batches: seq<Batch>): seq<Item> {
    if batches == [] then [] else ItemsOf(batches[0].files) + AllItems(batches[1..])
  }

  function Attempted(log: seq<Attempt>): (items: seq<Item>)
    ensures |items| == |log|
  {
    seq(|log|, i requires 0 <= i < |log| => Item(log[i].key, log[i].hash))
  }

  predicate LoggedTwice(b: Batch, p: Play) {
    p.load == Loaded && p.success == LandsButRaises && b.files != []
  }

  lemma {:induction false} AttemptedConcat(a: seq<Attempt>, b: seq<Attempt>)
    ensures Attempted(a + b) == Attempted(a) + Attempted(b)
  {
  }

  lemma {:induction false} BatchEntries(b: Batch, p: Play)
    requires Succeeds(p) || p.failure == Lands
    ensures Attempted(Entries(b, p)) == if LoggedTwice(b, p) then ItemsOf(b.files) + ItemsOf(b.files)
            else ItemsOf(b.files)
  {
    var items := ItemsOf(b.files);
    AttemptedConcat(Log(items, p.at, true), Log(items, p.at, false));
    assert Attempted(Log(items, p.at, true)) == items && Attempted(Log(items, p.at, false)) == items;
    assert Log(items, p.at, true) + [] == Log(items, p.at, true) &&
           [] + Log(items, p.at, false) == Log(items, p.at, false);
    assert b.files == [] ==> items == [];
  }

  lemma {:induction false} ItemCount(batches: seq<Batch>)
    ensures |AllItems(batches)| == FileCount(batches)
  {
    if batches != [] {
      ItemCount(batches[1..]);
    }
  }

  /** In a run that completes, every grouped file is counted once, as processed or as failed. */
  lemma {:induction false} CountsAddUp(t: Tally, batches: seq<Batch>, plays: seq<Play>)
    requires |plays| == |batches| && t.completed && RunBatches(t, batches, plays).completed
    ensures var r := RunBatches(t, batches, plays);
            r.processed + r.failed == t.processed + t.failed + FileCount(batches)
    decreases |batches|
  {
    if batches != [] {
      CountsAddUp(RunBatch(t, batches[0], plays[0]), batches[1..], plays[1..]);
    }
  }

  /** The failure log cannot be committed: the job ends with this group. */
  predicate Fatal(p: Play) {
    !Succeeds(p) && p.failure != Lands
  }

  /** The sizes of the groups that succeed, or of those that do not. */
  function FilesWhere(succeeds: bool, batches: seq<Batch>, plays: seq<Play>): nat
    requires |plays| == |batches|
  {
    if batches == [] then 0
    else
      (if Succeeds(plays[0]) == succeeds then |batches[0].files| else 0)
      + FilesWhere(succeeds, batches[1..], plays[1..])
  }

  /** The job takes the groups up to the first fatal one, or all of them. */
  predicate TakesGroups(plays: seq<Play>, n: nat) {
    && n <= |plays|
    && (forall i :: 0 <= i < n - 1 ==> !Fatal(plays[i]))
    && (n == |plays| || (n > 0 && Fatal(plays[n - 1])))
  }

  lemma {:induction false} CountsFrom(t: Tally, batches: seq<Batch>, plays: seq<Play>, n: nat)
    requires |plays| == |batches| && t.completed && TakesGroups(plays, n)
    ensures var r := RunBatches(t, batches, plays);
            && r.processed == t.processed + FilesWhere(true, batches[..n], plays[..n])
            && r.failed == t.failed + FilesWhere(false, batches[..n], plays[..n])
            && (r.completed <==> n == 0 || !Fatal(plays[n - 1]))
    decreases |batches|
  {
    if n > 0 {
      assert batches[..n][1..] == batches[1..][..n - 1] && plays[..n][1..] == plays[1..][..n - 1];
      var t' := RunBatch(t, batches[0], plays[0]);
      if n == 1 && Fatal(plays[0]) {
        assert plays[1..][..0] == [] && batches[1..][..0] == [];
      } else {
        CountsFrom(t', batches[1..], plays[1..], n - 1);
      }
    }
  }

  /** However the groups turn out: processed counts the files of the groups that succeed and failed those of the others,
      up to the group whose failure log cannot be committed, if there is one; otherwise the run completes. */
  lemma {:induction false} CountsExactly(attempts: seq<Attempt>, batches: seq<Batch>, plays: seq<Play>, n: nat)
    requires |plays| == |batches| && TakesGroups(plays, n)
    ensures var r := RunBatches(Tally(attempts, 0, 0, true), batches, plays);
            && r.processed == FilesWhere(true, batches[..n], plays[..n])
            && r.failed == FilesWhere(false, batches[..n], plays[..n])
            && (r.completed <==> n == 0 || !Fatal(plays[n - 1]))
  {
    CountsFrom(Tally(attempts, 0, 0, true), batches, plays, n);
  }

  lemma {:induction false} LogGrows(t: Tally, batches: seq<Batch>, plays: seq<Play>) returns (added: seq<Attempt>)
    requires |plays| == |batches| && t.completed && RunBatches(t, batches, plays).completed
    ensures RunBatches(t, batches, plays).attempts == t.attempts + added
    ensures |added| >= FileCount(batches)
    ensures (forall i :: 0 <= i < |batches| ==> !LoggedTwice(batches[i], plays[i])) ==>
            Attempted(added) == AllItems(batches)
    ensures |added| == FileCount(batches) ==> forall i :: 0 <= i < |batches| ==> !LoggedTwice(batches[i], plays[i])
    decreases |batches|
  {
    if batches == [] {
      added := [];
    } else {
      var first := Entries(batches[0], plays[0]);
      BatchEntries(batches[0], plays[0]);
      var rest := LogGrows(RunBatch(t, batches[0], plays[0]), batches[1..], plays[1..]);
      added := first + rest;
      assert t.attempts + first + rest == t.attempts + added;
      AttemptedConcat(first, rest);
    }
  }

  /** A run that completes logs each grouped file exactly once, in order, exactly when no success commit raised after it
      had landed; and it always counts each file exactly once. */
  lemma {:induction false} EachFileLoggedOnceExactly(attempts: seq<Attempt>, batches: seq<Batch>, plays: seq<Play>)
    requires |plays| == |batches| && RunBatches(Tally(attempts, 0, 0, true), batches, plays).completed
    ensures var r := RunBatches(Tally(attempts, 0, 0, true), batches, plays);
            && r.processed + r.failed == FileCount(batches)
            && attempts <= r.attempts
            && (Attempted(r.attempts[|attempts|..]) == AllItems(batches) <==>
                forall i :: 0 <= i < |batches| ==> !LoggedTwice(batches[i], plays[i]))
  {
    var t := Tally(attempts, 0, 0, true);
    CountsAddUp(t, batches, plays);
    var added := LogGrows(t, batches, plays);
    assert RunBatches(t, batches, plays).attempts[|attempts|..] == added;
    ItemCount(batches);
  }

  // ---- Draining the queue ---------------------------------------------------------------------

  /** The rows the pending query may return, all of them; without equal attempt times these are the rows it does
      return. */
  ghost predicate PendingRows(registry: map<Key, Version>, attempts: seq<Attempt>, rows: seq<LandingRow>) {
    && (forall r :: r in rows ==>
        r.key in registry && r.hash == registry[r.key] && MaybePending(registry, attempts, r.key))
    && (forall k :: k in registry && MaybePending(registry, attempts, k) ==> exists r :: r in rows && r.key == k)
  }

  /** The entries are successes after `cutoff`, one for each item in order. */
  ghost predicate Integrates(added: seq<Attempt>, items: seq<Item>, cutoff: int) {
    Attempted(added) == items && forall a :: a in added ==> a.success && a.at > cutoff
  }

  lemma {:induction false} IntegratesMore(b: Batch, p: Play, rest: seq<Attempt>, items: seq<Item>, cutoff: int)
    requires Succeeds(p) && p.at > cutoff && Integrates(rest, items, cutoff)
    ensures Integrates(Entries(b, p) + rest, ItemsOf(b.files) + items, cutoff)
  {
    BatchEntries(b, p);
    assert Entries(b, p) == Log(ItemsOf(b.files), p.at, true);
    LogMembers(ItemsOf(b.files), p.at, true);
    AttemptedConcat(Entries(b, p), rest);
  }

  lemma {:induction false} SuccessfulRun(t: Tally, batches: seq<Batch>, plays: seq<Play>, cutoff: int)
    returns (added: seq<Attempt>)
    requires |plays| == |batches| && t.completed && forall p :: p in plays ==> Succeeds(p) && p.at > cutoff
    ensures RunBatches(t, batches, plays).completed && RunBatches(t, batches, plays).failed == t.failed
    ensures RunBatches(t, batches, plays).attempts == t.attempts + added
    ensures Integrates(added, AllItems(batches), cutoff)
    decreases |batches|
  {
    if batches == [] {
      added := [];
    } else {
      assert plays[0] in plays && forall p :: p in plays[1..] ==> p in plays;
      var first, t' := Entries(batches[0], plays[0]), RunBatch(t, batches[0], plays[0]);
      assert t'.completed && t'.failed == t.failed && t'.attempts == t.attempts + first;
      var rest := SuccessfulRun(t', batches[1..], plays[1..], cutoff);
      IntegratesMore(batches[0], plays[0], rest, AllItems(batches[1..]), cutoff);
      added := first + rest;
      assert t.attempts + first + rest == t.attempts + added;
    }
  }

  lemma {:induction false} AddFileItems(batches: seq<Batch>, f: IngestibleFile, x: Item)
    ensures x in AllItems(AddFile(batches, f)) <==> x == Item(f.key, f.hash) || x in AllItems(batches)
  {
    if batches == [] {
      assert AddFile(batches, f)[1..] == [];
      assert AllItems(AddFile(batches, f)) == [Item(f.key, f.hash)] + AllItems([]);
    } else if batches[0].contract == f.contract {
      assert ItemsOf(batches[0].files + [f]) == ItemsOf(batches[0].files) + [Item(f.key, f.hash)];
    } else {
      AddFileItems(batches[1..], f, x);
    }
  }

  /** The grouped items are exactly those of the pending rows that pass the gates. */
  lemma {:induction false} GroupedExactly(c: Classifier, rows: seq<LandingRow>, x: Item)
    ensures x in AllItems(GroupRows(c, rows)) <==>
            exists row :: row in rows && Passes(c, row) && Item(row.key, row.hash) == x
  {
    if rows != [] {
      var before, last := rows[..|rows| - 1], rows[|rows| - 1];
      assert rows == before + [last];
      GroupedExactly(c, before, x);
      if FileOf(c, last).Some? {
        AddFileItems(GroupRows(c, before), FileOf(c, last).value, x);
      }
    }
  }

  /** Attempts on other keys do not matter to a key. */
  lemma {:induction false} OtherKeysDoNotMatter(registry: map<Key, Version>, attempts: seq<Attempt>,
                                                added: seq<Attempt>, k: Key)
    requires k in registry && forall a :: a in added ==> a.key != k
    ensures MaybePending(registry, attempts + added, k) <==> MaybePending(registry, attempts, k)
  {
    var log := attempts + added;
    forall a: Attempt | a.key == k ensures IsLatest(log, a) <==> IsLatest(attempts, a) {
      assert forall b :: b in attempts ==> b in log;
    }
    if MaybePending(registry, attempts, k) && !NeverAttempted(attempts, k) {
      var a :| a in attempts && a.key == k && IsLatest(attempts, a) && (!a.success || a.hash != registry[k]);
      assert a in log;
    }
  }

  /** A later success at the registered version takes a key out of the queue. */
  lemma {:induction false} LaterSuccessSettles(registry: map<Key, Version>, attempts: seq<Attempt>, added: seq<Attempt>,
                                               k: Key, cutoff: int)
    requires k in registry && (forall a :: a in attempts ==> a.at <= cutoff)
    requires forall a :: a in added && a.key == k ==> a.success && a.at > cutoff && a.hash == registry[k]
    requires exists a :: a in added && a.key == k
    ensures !MaybePending(registry, attempts + added, k)
  {
    var log := attempts + added;
    var some :| some in added && some.key == k;
    assert some in log;
    forall a | a in log && a.key == k && IsLatest(log, a) ensures a.success && a.hash == registry[k] {
      assert some.at <= a.at;
    }
  }

  /** After a run in which every group succeeds, with nothing newly registered, the next query returns exactly the rows
      the gates dropped. */
  lemma {:induction false} DrainLeavesOnlyDropped(c: Classifier, registry: map<Key, Version>, attempts: seq<Attempt>,
                                                  rows: seq<LandingRow>, plays: seq<Play>, cutoff: int)
    requires PendingRows(registry, attempts, rows) && |plays| == |GroupRows(c, rows)|
    requires (forall a :: a in attempts ==> a.at <= cutoff) && forall p :: p in plays ==> Succeeds(p) && p.at > cutoff
    ensures var r := RunBatches(Tally(attempts, 0, 0, true), GroupRows(c, rows), plays);
            && r.completed && r.failed == 0 && r.processed + DroppedCount(c, rows) == |rows|
            && forall k :: k in registry ==>
                 (MaybePending(registry, r.attempts, k) <==>
                  exists row :: row in rows && row.key == k && !Passes(c, row))
  {
    var batches, t := GroupRows(c, rows), Tally(attempts, 0, 0, true);
    var added := SuccessfulRun(t, batches, plays, cutoff);
    CountsAddUp(t, batches, plays);
    GroupingConserves(c, rows, "");
    forall k | k in registry
      ensures MaybePending(registry, attempts + added, k) <==>
              exists row :: row in rows && row.key == k && !Passes(c, row)
    {
      KeyAfterDrain(c, registry, attempts, rows, added, cutoff, k);
    }
  }

  lemma {:induction false} EntryOf(added: seq<Attempt>, items: seq<Item>, a: Attempt)
    requires Attempted(added) == items && a in added
    ensures Item(a.key, a.hash) in items
  {
    var i :| 0 <= i < |added| && added[i] == a;
    assert items[i] == Item(a.key, a.hash);
  }

  lemma {:induction false} EntryFor(added: seq<Attempt>, items: seq<Item>, x: Item) returns (a: Attempt)
    requires Attempted(added) == items && x in items
    ensures a in added && a.key == x.key && a.hash == x.hash
  {
    var i :| 0 <= i < |items| && items[i] == x;
    a := added[i];
  }

  /** What became of one registered key. */
  lemma {:induction false} KeyAfterDrain(c: Classifier, registry: map<Key, Version>, attempts: seq<Attempt>,
                                         rows: seq<LandingRow>, added: seq<Attempt>, cutoff: int, k: Key)
    requires PendingRows(registry, attempts, rows) && Integrates(added, AllItems(GroupRows(c, rows)), cutoff)
    requires k in registry && forall a :: a in attempts ==> a.at <= cutoff
    ensures MaybePending(registry, attempts + added, k) <==>
            exists row :: row in rows && row.key == k && !Passes(c, row)
  {
    var items := AllItems(GroupRows(c, rows));
    forall a | a in added
      ensures exists row :: row in rows && Passes(c, row) && row.key == a.key && row.hash == a.hash
    {
      EntryOf(added, items, a);
      GroupedExactly(c, rows, Item(a.key, a.hash));
    }
    if row :| row in rows && row.key == k && Passes(c, row) {
      GroupedExactly(c, rows, Item(row.key, row.hash));
      var a := EntryFor(added, items, Item(row.key, row.hash));
      LaterSuccessSettles(registry, attempts, added, k, cutoff);
      assert forall other :: other in rows && other.key == k ==> Passes(c, other);
    } else {
      OtherKeysDoNotMatter(registry, attempts, added, k);
    }
  }

  // ---- The job only takes protocol steps ------------------------------------------------------

  function ReadSteps(todo: seq<Item>): seq<Step> {
    if todo == [] then [] else [Step.Read(todo[0].key)] + ReadSteps(todo[1..])
  }

  function ReadInto(read: map<Key, Version>, s3: map<Key, Version>, todo: seq<Item>): map<Key, Version>
    requires forall x :: x in todo ==> x.key in s3
    decreases |todo|
  {
    if todo == [] then read
    else
      assert todo[0] in todo && forall x :: x in todo[1..] ==> x in todo;
      ReadInto(read[todo[0].key := s3[todo[0].key]], s3, todo[1..])
  }

  lemma {:induction false} ReadKeys(read: map<Key, Version>, s3: map<Key, Version>, todo: seq<Item>)
    requires forall x :: x in todo ==> x.key in s3
    ensures ReadInto(read, s3, todo).Keys == read.Keys + Keys(todo)
    ensures forall k :: k in ReadInto(read, s3, todo) ==>
            ReadInto(read, s3, todo)[k] == if k in Keys(todo) then s3[k] else read[k]
    decreases |todo|
  {
    if todo != [] {
      assert todo == [todo[0]] + todo[1..];
      assert todo[0] in todo && forall x :: x in todo[1..] ==> x in todo;
      ReadKeys(read[todo[0].key := s3[todo[0].key]], s3, todo[1..]);
      assert Keys(todo) == {todo[0].key} + Keys(todo[1..]);
    }
  }

  lemma {:induction false} ReadsRun(s: State, todo: seq<Item>)
    requires s.consumer.Loading? && forall x :: x in todo ==> x in s.consumer.batch && x.key in s.s3
    ensures Run(s, ReadSteps(todo)) == Some(s.(consumer := s.consumer.(read := ReadInto(s.consumer.read, s.s3, todo))))
    decreases |todo|
  {
    if todo != [] {
      assert todo[0] in todo && forall x :: x in todo[1..] ==> x in todo;
      assert todo[0].key in Keys(s.consumer.batch);
      RunCons(s, Step.Read(todo[0].key), ReadSteps(todo[1..]));
      ReadsRun(Next(s, Step.Read(todo[0].key)).value, todo[1..]);
    }
  }

  /** After a group has failed: the failure log, and the end of the job if its commit raises. */
  function FailureSteps(failure: CommitOutcome): seq<Step> {
    match failure
    case Lands => [CommitFailed] + []
    case NeverLands => [ConsumerStops] + []
    case LandsButRaises => [CommitFailed] + ([ConsumerStops] + [])
  }

  function MergedSteps(p: Play): seq<Step> {
    if p.load != Loaded || p.success == NeverLands then [DomainFails] + FailureSteps(p.failure)
    else if p.success == Lands then [CommitSuccess] + []
    else [SuccessLandsButRaises] + FailureSteps(p.failure)
  }

  lemma {:induction false} FailureRun(s: State, failure: CommitOutcome)
    requires s.consumer.Failing?
    ensures Run(s, FailureSteps(failure)) ==
            Some(s.(attempts := s.attempts + if failure == NeverLands then []
                    else Log(s.consumer.batch, s.consumer.at, false),
                    consumer := if failure == Lands then Between(s.consumer.groups) else Resting))
  {
    var s1 := Next(s, CommitFailed).value;
    RunCons(s, CommitFailed, []);
    RunCons(s, ConsumerStops, []);
    RunCons(s, CommitFailed, [ConsumerStops] + []);
    RunCons(s1, ConsumerStops, []);
    assert s.attempts + [] == s.attempts;
  }

  /** The versions S3 holds of a group's files. */
  function Stored(s: State, items: seq<Item>): map<Key, Version> {
    map k | k in Keys(items) && k in s.s3 :: s.s3[k]
  }

  /** What a group's turn leaves of the protocol state: its files are merged at the versions S3 holds, unless loading
      fails before the merge takes effect. */
  ghost predicate TurnEnds(s: State, b: Batch, p: Play, rest: seq<seq<Item>>, s': State) {
    && s'.table == (if p.load == LoadFails then s.table else s.table + Stored(s, ItemsOf(b.files)))
    && s'.remote == s.remote && s'.s3 == s.s3 && s'.registry == s.registry && s'.producer == s.producer
    && s'.attempts == s.attempts + Entries(b, p)
    && s'.consumer == if Succeeds(p) || p.failure == Lands then Between(rest) else Resting
  }

  lemma {:induction false} MergedRun(s: State, b: Batch, p: Play)
    requires s.consumer.Merged? && s.consumer.batch == ItemsOf(b.files) && s.consumer.at == p.at && p.load != LoadFails
    ensures Run(s, MergedSteps(p)).Some?
    ensures var s' := Run(s, MergedSteps(p)).value;
            && s' == s.(attempts := s'.attempts, consumer := s'.consumer) && s'.attempts == s.attempts + Entries(b, p)
            && s'.consumer == if Succeeds(p) || p.failure == Lands then Between(s.consumer.groups) else Resting
  {
    TurnCases(s.attempts, b, p);
    if p.load != Loaded || p.success == NeverLands {
      assert s.attempts + [] == s.attempts;
      RunCons(s, DomainFails, FailureSteps(p.failure));
      FailureRun(Next(s, DomainFails).value, p.failure);
    } else if p.success == Lands {
      RunCons(s, CommitSuccess, []);
    } else {
      RunCons(s, SuccessLandsButRaises, FailureSteps(p.failure));
      FailureRun(Next(s, SuccessLandsButRaises).value, p.failure);
    }
  }

  lemma {:induction false} FailedTurnRun(s: State, b: Batch, p: Play)
    requires s.consumer.Loading? && s.consumer.batch == ItemsOf(b.files) && s.consumer.at == p.at && p.load == LoadFails
    ensures Run(s, [DomainFails] + FailureSteps(p.failure)).Some?
    ensures TurnEnds(s, b, p, s.consumer.groups, Run(s, [DomainFails] + FailureSteps(p.failure)).value)
  {
    TurnCases(s.attempts, b, p);
    assert s.attempts + [] == s.attempts;
    RunCons(s, DomainFails, FailureSteps(p.failure));
    FailureRun(Next(s, DomainFails).value, p.failure);
  }

  lemma {:induction false} LoadedTurnRun(s: State, b: Batch, p: Play)
    requires s.consumer.Loading? && s.consumer.batch == ItemsOf(b.files) && s.consumer.at == p.at && p.load != LoadFails
    requires s.consumer.read == map[] && forall x :: x in s.consumer.batch ==> x.key in s.s3
    ensures var steps := ReadSteps(s.consumer.batch) + ([Merge] + MergedSteps(p));
            Run(s, steps).Some? && TurnEnds(s, b, p, s.consumer.groups, Run(s, steps).value)
  {
    var items := s.consumer.batch;
    ReadsRun(s, items);
    ReadKeys(map[], s.s3, items);
    var s1 := Run(s, ReadSteps(items)).value;
    var s2 := Next(s1, Merge).value;
    assert s2.table == s.table + Stored(s, items);
    MergedRun(s2, b, p);
    RunCons(s1, Merge, MergedSteps(p));
    RunConcat(s, ReadSteps(items), [Merge] + MergedSteps(p));
  }

  /** One group's turn is a run of the protocol. */
  lemma {:induction false} BatchIsProtocolRun(s: State, b: Batch, p: Play, rest: seq<seq<Item>>)
    returns (steps: seq<Step>)
    requires Inv(s) && s.consumer == Between([ItemsOf(b.files)] + rest)
    ensures Run(s, steps).Some? && TurnEnds(s, b, p, rest, Run(s, steps).value)
  {
    var items, groups := ItemsOf(b.files), s.consumer.groups;
    assert groups[0] == items && groups[1..] == rest && items in groups;
    assert BatchStored(s, items);
    var s1 := Next(s, Begin(p.at)).value;
    var more;
    if p.load == LoadFails {
      FailedTurnRun(s1, b, p);
      more := [DomainFails] + FailureSteps(p.failure);
    } else {
      LoadedTurnRun(s1, b, p);
      more := ReadSteps(items) + ([Merge] + MergedSteps(p));
    }
    RunCons(s, Begin(p.at), more);
    steps := [Begin(p.at)] + more;
  }

  function Groups(batches: seq<Batch>): (groups: seq<seq<Item>>)
    ensures |groups| == |batches|
  {
    seq(|batches|, i requires 0 <= i < |batches| => ItemsOf(batches[i].files))
  }

  /** The whole loop is a run of the protocol with the same attempt log, so the protocol's theorems cover every state it
      goes through. */
  lemma {:induction false} JobIsProtocolRun(s: State, t: Tally, batches: seq<Batch>, plays: seq<Play>)
    returns (steps: seq<Step>)
    requires Inv(s) && s.consumer == Between(Groups(batches)) && s.attempts == t.attempts && t.completed &&
             |plays| == |batches|
    ensures Run(s, steps).Some?
    ensures var s' := Run(s, steps).value;
            && s'.attempts == RunBatches(t, batches, plays).attempts && s'.registry == s.registry && s'.s3 == s.s3
            && s'.consumer == if RunBatches(t, batches, plays).completed then Between([]) else Resting
    decreases |batches|
  {
    if batches == [] {
      steps := [];
    } else {
      assert Groups(batches) == [ItemsOf(batches[0].files)] + Groups(batches[1..]);
      steps := BatchIsProtocolRun(s, batches[0], plays[0], Groups(batches[1..]));
      RunKeepsInv(s, steps);
      var t' := RunBatch(t, batches[0], plays[0]);
      var s1 := Run(s, steps).value;
      if t'.completed {
        var more := JobIsProtocolRun(s1, t', batches[1..], plays[1..]);
        RunConcat(s, steps, more);
        steps := steps + more;
      }
    }
  }

  lemma {:induction false} GroupIsListed(batches: seq<Batch>, g: seq<Item>, x: Item)
    requires g in Groups(batches) && x in g
    ensures x in AllItems(batches)
  {
    assert Groups(batches) == [ItemsOf(batches[0].files)] + Groups(batches[1..]);
    if g != ItemsOf(batches[0].files) {
      GroupIsListed(batches[1..], g, x);
    }
  }

  /** A staging run from the pending query on. */
  lemma {:induction false} StagingRunIsProtocolRun(s: State, c: Classifier, rows: seq<LandingRow>, plays: seq<Play>)
    returns (steps: seq<Step>)
    requires Inv(s) && s.consumer == Resting && PendingRows(s.registry, s.attempts, rows) &&
             |plays| == |GroupRows(c, rows)|
    ensures Run(s, steps).Some?
    ensures Run(s, steps).value.attempts ==
            RunBatches(Tally(s.attempts, 0, 0, true), GroupRows(c, rows), plays).attempts
  {
    var batches := GroupRows(c, rows);
    var groups := Groups(batches);
    forall g, x | g in groups && x in g
      ensures x.key in s.registry && x.hash == s.registry[x.key] && MaybePending(s.registry, s.attempts, x.key)
    {
      GroupIsListed(batches, g, x);
      GroupedExactly(c, rows, x);
    }
    var s1 := Next(s, Query(groups)).value;
    StepKeepsInv(s, Query(groups));
    var more := JobIsProtocolRun(s1, Tally(s.attempts, 0, 0, true), batches, plays);
    RunCons(s, Query(groups), more);
    steps := [Query(groups)] + more;
  }
}
