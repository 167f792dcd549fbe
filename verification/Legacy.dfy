/** The three legacy archives: which folders each covers, and the passes that crawl them. */
module Legacy {
  import opened Prelude
  import opened Text
  import opened Catalog

  datatype Rule = Rule(archive: string, patterns: seq<string>)

  /** The overview file: environments in file order, each with its root directories. */
  datatype Directory = Directory(name: string, folders: seq<string>)
  datatype Environment = Environment(name: string, roots: seq<Directory>)

  datatype Error = OverviewMissing | EnvironmentMissing | LegacyRootMissing

  const R1: string := "R1_Archives_CSV_XML"
  const R2: string := "R2_Archives"
  const R3: string := "R3_Archives"
  const LEGACY_ROOT: string := "TP_Legacy_Publications"

  // ---- Finding the rule and the folders -------------------------------------------------------

  function FindEnvironment(envs: seq<Environment>, name: string): Option<Environment> {
    if envs == [] then None
    else if Lower(envs[0].name) == Lower(name) then Some(envs[0])
    else FindEnvironment(envs[1..], name)
  }

  function FindRoot(roots: seq<Directory>): Option<seq<string>> {
    if roots == [] then None else if roots[0].name == LEGACY_ROOT then Some(roots[0].folders) else FindRoot(roots[1..])
  }

  function LegacyFolders(overview: Option<seq<Environment>>, env: string): Result<seq<string>, Error> {
    if overview.None? then Err(OverviewMissing)
    else
      var e := FindEnvironment(overview.value, env);
      if e.None? || e.value.name == "" then Err(EnvironmentMissing)
      else
        var folders := FindRoot(e.value.roots);
        if folders.None? then Err(LegacyRootMissing) else Ok(folders.value)
  }

  /** The first environment of that name, ignoring case. */
  predicate EnvironmentAt(envs: seq<Environment>, name: string, i: int) {
    0 <= i < |envs| && Lower(envs[i].name) == Lower(name) && forall j :: 0 <= j < i ==>
    Lower(envs[j].name) != Lower(name)
  }

  /** The first root directory of legacy publications. */
  predicate RootAt(roots: seq<Directory>, i: int) {
    && 0 <= i < |roots| && roots[i].name == "TP_Legacy_Publications"
    && forall j :: 0 <= j < i ==> roots[j].name != "TP_Legacy_Publications"
  }

  lemma {:induction false} FindEnvironmentFinds(envs: seq<Environment>, name: string)
    ensures forall i :: EnvironmentAt(envs, name, i) ==> FindEnvironment(envs, name) == Some(envs[i])
    ensures FindEnvironment(envs, name).Some? ==> exists i :: EnvironmentAt(envs, name, i)
  {
    if envs != [] {
      FindEnvironmentFinds(envs[1..], name);
      forall i | EnvironmentAt(envs, name, i) && i > 0 ensures EnvironmentAt(envs[1..], name, i - 1) {
        forall j | 0 <= j < i - 1 ensures Lower(envs[1..][j].name) != Lower(name) {
          assert envs[1..][j] == envs[j + 1];
        }
      }
      if Lower(envs[0].name) == Lower(name) {
        assert EnvironmentAt(envs, name, 0);
      } else if i :| EnvironmentAt(envs[1..], name, i) {
        forall j | 0 <= j < i + 1 ensures Lower(envs[j].name) != Lower(name) {
          assert j > 0 ==> envs[j] == envs[1..][j - 1];
        }
        assert EnvironmentAt(envs, name, i + 1);
      }
    }
  }

  lemma {:induction false} FindRootFinds(roots: seq<Directory>)
    ensures forall i :: RootAt(roots, i) ==> FindRoot(roots) == Some(roots[i].folders)
    ensures FindRoot(roots).Some? ==> exists i :: RootAt(roots, i)
  {
    if roots != [] {
      FindRootFinds(roots[1..]);
      forall i | RootAt(roots, i) && i > 0 ensures RootAt(roots[1..], i - 1) {
        forall j | 0 <= j < i - 1 ensures roots[1..][j].name != "TP_Legacy_Publications" {
          assert roots[1..][j] == roots[j + 1];
        }
      }
      if roots[0].name == "TP_Legacy_Publications" {
        assert RootAt(roots, 0);
      } else if i :| RootAt(roots[1..], i) {
        forall j | 0 <= j < i + 1 ensures roots[j].name != "TP_Legacy_Publications" {
          assert j > 0 ==> roots[j] == roots[1..][j - 1];
        }
        assert RootAt(roots, i + 1);
      }
    }
  }

  /** The legacy folders are those of the first such root of the first environment of that name, if the overview has
      both; otherwise the error says which is missing. */
  lemma {:induction false} LegacyFoldersExactly(overview: Option<seq<Environment>>, env: string)
    ensures overview.None? ==> LegacyFolders(overview, env) == Err(OverviewMissing)
    ensures overview.Some? && (forall i :: EnvironmentAt(overview.value, env, i) ==> overview.value[i].name == "") ==>
              LegacyFolders(overview, env) == Err(EnvironmentMissing)
    ensures overview.Some? ==>
              forall i :: EnvironmentAt(overview.value, env, i) && overview.value[i].name != "" ==>
                && (forall j :: RootAt(overview.value[i].roots, j) ==>
                      LegacyFolders(overview, env) == Ok(overview.value[i].roots[j].folders))
                && ((forall j :: !RootAt(overview.value[i].roots, j)) ==>
                      LegacyFolders(overview, env) == Err(LegacyRootMissing))
  {
    if overview.Some? {
      FindEnvironmentFinds(overview.value, env);
      forall i | EnvironmentAt(overview.value, env, i)
        ensures forall j :: RootAt(overview.value[i].roots, j) ==>
                  FindRoot(overview.value[i].roots) == Some(overview.value[i].roots[j].folders)
        ensures FindRoot(overview.value[i].roots).Some? ==> exists j :: RootAt(overview.value[i].roots, j)
      {
        FindRootFinds(overview.value[i].roots);
      }
    }
  }

  /** The first rule for an archive, ignoring case. */
  function RuleFor(rules: seq<Rule>, archive: string): Option<Rule> {
    if rules == [] then None
    else if Lower(rules[0].archive) == Lower(archive) then Some(rules[0])
    else RuleFor(rules[1..], archive)
  }

  /** The first rule of exactly that name. */
  function RuleNamed(rules: seq<Rule>, archive: string): Option<Rule> {
    if rules == [] then None else if rules[0].archive == archive then Some(rules[0]) else RuleNamed(rules[1..], archive)
  }

  function PatternsNamed(rules: seq<Rule>, archive: string): seq<string> {
    var r := RuleNamed(rules, archive);
    if r.Some? then r.value.patterns else []
  }

  predicate MatchesAny(patterns: seq<string>, folder: string) {
    exists p :: p in patterns && Contains(Lower(folder), Lower(p))
  }

  /** Is the folder in the archive the rule stands for? R1 also takes what the R2 and R3 rules leave. */
  predicate Covers(rules: seq<Rule>, rule: Rule, folder: string) {
    MatchesAny(rule.patterns, folder) ||
    (rule.archive == R1 && !MatchesAny(PatternsNamed(rules, R2), folder) &&
     !MatchesAny(PatternsNamed(rules, R3), folder))
  }

  /** Some pattern occurs in the folder's name, ignoring case. */
  ghost predicate Matched(patterns: seq<string>, folder: string) {
    exists p, k :: p in patterns && 0 <= k <= |folder| && OccursAt(Lower(folder), Lower(p), k)
  }

  lemma {:induction false} MatchesAnyExactly(patterns: seq<string>, folder: string)
    ensures MatchesAny(patterns, folder) <==> Matched(patterns, folder)
  {
    if p :| p in patterns && Contains(Lower(folder), Lower(p)) {
      var k :| 0 <= k <= |Lower(folder)| && OccursAt(Lower(folder), Lower(p), k);
    }
    if p, k :| p in patterns && 0 <= k <= |folder| && OccursAt(Lower(folder), Lower(p), k) {
      assert Contains(Lower(folder), Lower(p));
    }
  }

  /** The first rule of exactly that name. */
  predicate RuleAt(rules: seq<Rule>, archive: string, i: int) {
    0 <= i < |rules| && rules[i].archive == archive && forall j :: 0 <= j < i ==> rules[j].archive != archive
  }

  lemma {:induction false} PatternsNamedAre(rules: seq<Rule>, archive: string)
    ensures forall i :: RuleAt(rules, archive, i) ==> PatternsNamed(rules, archive) == rules[i].patterns
    ensures (forall i :: !RuleAt(rules, archive, i)) ==> PatternsNamed(rules, archive) == []
  {
    if rules != [] {
      PatternsNamedAre(rules[1..], archive);
      forall i | RuleAt(rules, archive, i) && i > 0 ensures RuleAt(rules[1..], archive, i - 1) {
        forall j | 0 <= j < i - 1 ensures rules[1..][j].archive != archive {
          assert rules[1..][j] == rules[j + 1];
        }
      }
      if rules[0].archive == archive {
        assert RuleAt(rules, archive, 0);
      } else if i :| RuleAt(rules[1..], archive, i) {
        forall j | 0 <= j < i + 1 ensures rules[j].archive != archive {
          assert j > 0 ==> rules[j] == rules[1..][j - 1];
        }
        assert RuleAt(rules, archive, i + 1);
      }
    }
  }

  /** A rule covers the folders its patterns occur in. The R1 rule also covers the folders in which no pattern of the
      first rules named R2_Archives and R3_Archives occurs. */
  lemma {:induction false} CoversExactly(rules: seq<Rule>, rule: Rule, folder: string)
    ensures Covers(rules, rule, folder) <==>
            || Matched(rule.patterns, folder)
            || (&& rule.archive == "R1_Archives_CSV_XML"
                && forall i :: RuleAt(rules, "R2_Archives", i) || RuleAt(rules, "R3_Archives", i) ==>
                     !Matched(rules[i].patterns, folder))
  {
    MatchesAnyExactly(rule.patterns, folder);
    forall archive | archive in {"R2_Archives", "R3_Archives"}
      ensures MatchesAny(PatternsNamed(rules, archive), folder) <==>
              exists i :: RuleAt(rules, archive, i) && Matched(rules[i].patterns, folder)
    {
      PatternsNamedAre(rules, archive);
      MatchesAnyExactly(PatternsNamed(rules, archive), folder);
    }
  }

  // ---- Sorted without duplicates --------------------------------------------------------------

  predicate StrictlySorted(s: seq<string>) {
    forall i, j :: 0 <= i < j < |s| ==> StrLe(s[i], s[j]) && s[i] != s[j]
  }

  function InsertUnique(x: string, sorted: seq<string>): seq<string> {
    if sorted == [] then [x]
    else if x == sorted[0] then sorted
    else if StrLe(x, sorted[0]) then [x] + sorted
    else [sorted[0]] + InsertUnique(x, sorted[1..])
  }

  /** `sorted(set(s))`. */
  function SortedSet(s: seq<string>): seq<string> {
    if s == [] then [] else InsertUnique(s[0], SortedSet(s[1..]))
  }

  lemma {:induction false} StrictCons(x: string, rest: seq<string>)
    requires StrictlySorted(rest) && (rest == [] || (StrLe(x, rest[0]) && x != rest[0]))
    ensures StrictlySorted([x] + rest)
  {
    forall j | 0 <= j < |rest| ensures StrLe(x, rest[j]) && x != rest[j] {
      if j > 0 {
        StrLeTransitive(x, rest[0], rest[j]);
        if x == rest[j] {
          StrLeTotal(x, rest[0]);
        }
      }
    }
  }

  lemma {:induction false} InsertUniqueSorts(x: string, sorted: seq<string>)
    requires StrictlySorted(sorted)
    ensures StrictlySorted(InsertUnique(x, sorted))
    ensures forall y :: y in InsertUnique(x, sorted) <==> y == x || y in sorted
    ensures sorted != [] ==> InsertUnique(x, sorted)[0] in {x, sorted[0]}
  {
    if sorted != [] {
      assert sorted == [sorted[0]] + sorted[1..];
      StrLeTotal(x, sorted[0]);
      if x != sorted[0] {
        if StrLe(x, sorted[0]) {
          StrictCons(x, sorted);
        } else {
          InsertUniqueSorts(x, sorted[1..]);
          StrictCons(sorted[0], InsertUnique(x, sorted[1..]));
        }
      }
    }
  }

  lemma {:induction false} SortedSetExact(s: seq<string>)
    ensures StrictlySorted(SortedSet(s))
    ensures forall x :: x in SortedSet(s) <==> x in s
  {
    if s != [] {
      SortedSetExact(s[1..]);
      InsertUniqueSorts(s[0], SortedSet(s[1..]));
      assert s == [s[0]] + s[1..];
    }
  }

  // ---- One archive ----------------------------------------------------------------------------

  /** `get_legacy_archive_folders`. */
  method GetLegacyArchiveFolders(rules: seq<Rule>, overview: Option<seq<Environment>>, archive: string, env: string)
    returns (r: Result<seq<string>, Error>)
    ensures LegacyFolders(overview, env).Err? ==> r == Err(LegacyFolders(overview, env).error)
    ensures LegacyFolders(overview, env).Ok? ==>
            r.Ok? && ArchiveIs(rules, archive, LegacyFolders(overview, env).value, r.value)
  {
    var found := LegacyFolders(overview, env);
    if found.Err? {
      return Err(found.error);
    }
    var folders := found.value;
    var rule := RuleFor(rules, archive);
    if rule.None? {
      return Ok([]);
    }
    var matched: seq<string> := [];
    for i := 0 to |folders|
      invariant forall f :: f in matched <==> f in folders[..i] && MatchesAny(rule.value.patterns, f)
    {
      if MatchesAny(rule.value.patterns, folders[i]) {
        matched := matched + [folders[i]];
      }
    }
    if rule.value.archive == R1 {
      var r2, r3 := PatternsNamed(rules, R2), PatternsNamed(rules, R3);
      for i := 0 to |folders|
        invariant forall f :: f in matched <==>
                    f in folders &&
                    (MatchesAny(rule.value.patterns, f) || (f in folders[..i] && Covers(rules, rule.value, f)))
      {
        if folders[i] in matched {
          continue;
        }
        if !MatchesAny(r2, folders[i]) && !MatchesAny(r3, folders[i]) {
          matched := matched + [folders[i]];
        }
      }
    }
    SortedSetExact(matched);
    return Ok(SortedSet(matched));
  }

  /** The archive's folders: sorted, without duplicates, and exactly those its rule covers; none without a rule. */
  ghost predicate ArchiveIs(rules: seq<Rule>, archive: string, folders: seq<string>, list: seq<string>) {
    && StrictlySorted(list)
    && forall f :: f in list <==> f in folders && InArchive(rules, archive, f)
  }

  predicate InArchive(rules: seq<Rule>, archive: string, folder: string) {
    RuleFor(rules, archive).Some? && Covers(rules, RuleFor(rules, archive).value, folder)
  }

  // ---- The three together ---------------------------------------------------------------------

  predicate InSomeArchive(rules: seq<Rule>, folder: string) {
    InArchive(rules, R1, folder) || InArchive(rules, R2, folder) || InArchive(rules, R3, folder)
  }

  predicate ArchivesDistinctUpToCase(rules: seq<Rule>) {
    forall i, j :: 0 <= i < j < |rules| ==> Lower(rules[i].archive) != Lower(rules[j].archive)
  }

  lemma {:induction false} NamedIsFound(rules: seq<Rule>, archive: string)
    requires ArchivesDistinctUpToCase(rules) && RuleNamed(rules, archive).Some?
    ensures RuleFor(rules, archive) == RuleNamed(rules, archive) && RuleNamed(rules, archive).value.archive == archive
  {
    if rules[0].archive != archive {
      NamedIsFound(rules[1..], archive);
      NamedIsIn(rules[1..], archive);
      var k :| 0 <= k < |rules[1..]| && rules[1..][k].archive == archive;
      assert rules[k + 1] == rules[1..][k];
    }
  }

  lemma {:induction false} NamedIsIn(rules: seq<Rule>, archive: string)
    requires RuleNamed(rules, archive).Some?
    ensures exists k :: 0 <= k < |rules| && rules[k].archive == archive
  {
    if rules[0].archive != archive {
      NamedIsIn(rules[1..], archive);
      var k :| 0 <= k < |rules[1..]| && rules[1..][k].archive == archive;
      assert rules[k + 1] == rules[1..][k];
    }
  }

  predicate MatchesRule(rules: seq<Rule>, archive: string, folder: string) {
    RuleFor(rules, archive).Some? && MatchesAny(RuleFor(rules, archive).value.patterns, folder)
  }

  predicate MatchesSomeRule(rules: seq<Rule>, folder: string) {
    MatchesRule(rules, R1, folder) || MatchesRule(rules, R2, folder) || MatchesRule(rules, R3, folder)
  }

  /** Archives cover a folder exactly when the R1 rule exists under its exact name or one of the three rules matches
      it. */
  lemma {:induction false} CoverageExactly(rules: seq<Rule>, folder: string)
    requires ArchivesDistinctUpToCase(rules)
    ensures InSomeArchive(rules, folder) <==>
            RuleNamed(rules, R1).Some? || MatchesSomeRule(rules, folder)
  {
    if RuleNamed(rules, R1).Some? {
      NamedIsFound(rules, R1);
      if !Covers(rules, RuleFor(rules, R1).value, folder) {
        if MatchesAny(PatternsNamed(rules, R2), folder) {
          NamedIsFound(rules, R2);
        } else {
          assert MatchesAny(PatternsNamed(rules, R3), folder);
          NamedIsFound(rules, R3);
        }
      }
    } else {
      NotR1(rules, R1);
      NotR1(rules, R2);
      NotR1(rules, R3);
    }
  }

  /** Without a rule named R1 no found rule gets the fallback. */
  lemma {:induction false} NotR1(rules: seq<Rule>, archive: string)
    requires ArchivesDistinctUpToCase(rules) && RuleNamed(rules, R1).None?
    ensures RuleFor(rules, archive).Some? ==> RuleFor(rules, archive).value.archive != R1
  {
    if RuleFor(rules, archive).Some? {
      FoundIsIn(rules, archive);
      if RuleFor(rules, archive).value.archive == R1 {
        InMeansNamed(rules, RuleFor(rules, archive).value);
      }
    }
  }

  lemma {:induction false} FoundIsIn(rules: seq<Rule>, archive: string)
    requires RuleFor(rules, archive).Some?
    ensures RuleFor(rules, archive).value in rules
  {
    if Lower(rules[0].archive) != Lower(archive) {
      FoundIsIn(rules[1..], archive);
    }
  }

  lemma {:induction false} InMeansNamed(rules: seq<Rule>, r: Rule)
    requires r in rules
    ensures RuleNamed(rules, r.archive).Some?
  {
    if rules[0].archive != r.archive {
      assert r in rules[1..];
      InMeansNamed(rules[1..], r);
    }
  }

  /** With the R1 rule in place the three lists together are exactly the legacy folders. */
  lemma {:induction false} ArchivesCoverEverything(rules: seq<Rule>, folders: seq<string>, r1: seq<string>,
                                                   r2: seq<string>, r3: seq<string>)
    requires ArchivesDistinctUpToCase(rules) && RuleNamed(rules, R1).Some?
    requires ArchiveIs(rules, R1, folders, r1) && ArchiveIs(rules, R2, folders, r2) && ArchiveIs(rules, R3, folders, r3)
    ensures forall f :: f in folders <==> f in r1 || f in r2 || f in r3
  {
    forall f | f in folders ensures f in r1 || f in r2 || f in r3 {
      CoverageExactly(rules, f);
    }
  }

  // ---- The passes -----------------------------------------------------------------------------

  function Kept(folders: seq<string>, archiveFolders: seq<string>): seq<string> {
    if folders == [] then []
    else (if folders[0] in archiveFolders then [folders[0]] else []) + Kept(folders[1..], archiveFolders)
  }

  lemma {:induction false} KeptExact(folders: seq<string>, archiveFolders: seq<string>)
    ensures forall f :: f in Kept(folders, archiveFolders) <==> f in folders && f in archiveFolders
  {
    if folders != [] {
      KeptExact(folders[1..], archiveFolders);
      assert folders == [folders[0]] + folders[1..];
    }
  }

  /** The selection of `ingest_legacy_metadata`: the given folders that belong to the archive, or the whole archive;
      nothing when the rule or the overview is missing. */
  method SelectFolders(rules: seq<Rule>, overview: Option<seq<Environment>>, archive: string, env: string,
                       given: Option<seq<string>>)
    returns (selected: seq<string>)
    ensures forall f :: f in selected <==>
              && LegacyFolders(overview, env).Ok? && f in LegacyFolders(overview, env).value
              && InArchive(rules, archive, f) && (given.Some? ==> f in given.value)
    ensures given.None? ==> StrictlySorted(selected)
  {
    if RuleFor(rules, archive).None? {
      return [];
    }
    var archiveFolders := GetLegacyArchiveFolders(rules, overview, archive, env);
    if archiveFolders.Err? {
      return [];
    }
    if given.None? {
      return archiveFolders.value;
    }
    KeptExact(given.value, archiveFolders.value);
    return Kept(given.value, archiveFolders.value);
  }

  /** `ingest_all_legacy_metadata`: one pass per archive, newest first. Every given legacy folder is selected by some
      pass when the R1 rule exists, and in general exactly when `CoverageExactly` says so. */
  method SelectAll(rules: seq<Rule>, overview: Option<seq<Environment>>, env: string, given: Option<seq<string>>)
    returns (passes: seq<(string, seq<string>)>)
    requires ArchivesDistinctUpToCase(rules)
    ensures |passes| == 3
    ensures passes[0].0 == "R3_Archives" && passes[1].0 == "R2_Archives" && passes[2].0 == "R1_Archives_CSV_XML"
    ensures forall f :: SelectedIn(passes, f) ==>
              LegacyFolders(overview, env).Ok? && f in LegacyFolders(overview, env).value &&
              (given.Some? ==> f in given.value)
    ensures LegacyFolders(overview, env).Ok? ==>
              forall f :: f in LegacyFolders(overview, env).value && (given.Some? ==> f in given.value) ==>
                (SelectedIn(passes, f) <==> RuleNamed(rules, R1).Some? || MatchesSomeRule(rules, f))
  {
    var third := SelectFolders(rules, overview, R3, env, given);
    var second := SelectFolders(rules, overview, R2, env, given);
    var first := SelectFolders(rules, overview, R1, env, given);
    passes := [(R3, third), (R2, second), (R1, first)];
    if LegacyFolders(overview, env).Ok? {
      forall f | f in LegacyFolders(overview, env).value && (given.Some? ==> f in given.value)
        ensures SelectedIn(passes, f) <==> RuleNamed(rules, R1).Some? || MatchesSomeRule(rules, f)
      {
        CoverageExactly(rules, f);
        assert passes[0].1 == third && passes[1].1 == second && passes[2].1 == first;
        assert SelectedIn(passes, f) <==> f in third || f in second || f in first;
      }
    }
  }

  predicate SelectedIn(passes: seq<(string, seq<string>)>, f: string) {
    exists i :: 0 <= i < |passes| && f in passes[i].1
  }

  // ---- Crawling a selection -------------------------------------------------------------------

  function LegacyKey(env: string, folder: string): FolderKey {
    FolderKey(Lower(env), "/" + LEGACY_ROOT + "/" + folder + "/")
  }

  /** The stored path of a legacy folder has two segments: the legacy root and the folder. */
  lemma {:induction false} LegacyKeySegments(env: string, folder: string)
    requires IsSegment(folder)
    ensures LegacyKey(env, folder).env == Lower(env)
    ensures Split(Strip(LegacyKey(env, folder).path, '/'), '/') == ["TP_Legacy_Publications", folder]
  {
    TwoSegments("TP_Legacy_Publications", folder);
    assert LegacyKey(env, folder).path == "/" + ("TP_Legacy_Publications" + "/" + folder) + "/";
  }

  lemma {:induction false} TwoSegments(a: string, b: string)
    requires IsSegment(a) && IsSegment(b)
    ensures Split(Strip("/" + (a + "/" + b) + "/", '/'), '/') == [a, b]
  {
    var inner := a + "/" + b;
    assert inner[0] == a[0] && inner[|inner| - 1] == b[|b| - 1];
    StripEnclosed(inner, '/');
    SplitConcat(a, '/', b);
    SplitWithoutSeparator(a, '/');
    SplitWithoutSeparator(b, '/');
  }

  /** How saving a folder turns out, for reasons of the database's own. */
  datatype Saving = Saves | Refuses | SavesButRaises

  /** How crawling and saving each folder of a pass turns out. */
  datatype World = World(crawl: string -> Option<seq<Listed>>, save: string -> Saving, now: int)

  /** One folder's save, None where the tables' constraints refuse it. */
  function Saved(t: Tables, env: string, archive: string, folder: string, files: seq<Listed>,
                 now: int): Option<Tables>
  {
    SaveFolder(t, LegacyKey(env, folder), archive, CompileFolderMetadata(files), files, now)
  }

  /** What a pass does to the catalogue: each folder crawled and saved in turn; a failed crawl is skipped, a save that
      raises ends the pass. */
  function CrawlFolders(t: Tables, env: string, archive: string, folders: seq<string>, world: World): Tables
    decreases |folders|
  {
    if folders == [] then t
    else
      var files := world.crawl(folders[0]);
      if files.None? then CrawlFolders(t, env, archive, folders[1..], world)
      else
        var saved := Saved(t, env, archive, folders[0], files.value, world.now);
        if saved.None? || world.save(folders[0]) == Refuses then t
        else if world.save(folders[0]) == SavesButRaises then saved.value
        else CrawlFolders(saved.value, env, archive, folders[1..], world)
  }

  /** The crawl loop of `ingest_legacy_metadata`. */
  method IngestLegacyFolders(database: Database, env: string, archive: string, folders: seq<string>,
                             world: World)
    modifies database
    ensures database.State() == CrawlFolders(old(database.State()), env, archive, folders, world)
  {
    ghost var start := database.State();
    for i := 0 to |folders|
      invariant CrawlFolders(database.State(), env, archive, folders[i..], world) ==
                CrawlFolders(start, env, archive, folders, world)
    {
      assert folders[i..][1..] == folders[i + 1..];
      var files := world.crawl(folders[i]);
      if files.None? {
        continue;
      }
      var saving := world.save(folders[i]);
      var meta := CompileFolderMetadata(files.value);
      var ok := database.SaveCrawledFolderMetadata(LegacyKey(env, folders[i]), archive, meta, files.value, world.now,
                                                   saving == Refuses);
      if !ok || saving == SavesButRaises {
        return;
      }
    }
  }

  lemma {:induction false} SaveKeepsAggregates(t: Tables, env: string, archive: string, folder: string,
                                               files: seq<Listed>, now: int)
    requires TablesOk(t) && AllAggregatesAgree(t)
    ensures var saved := Saved(t, env, archive, folder, files, now);
            saved.Some? ==> TablesOk(saved.value) && AllAggregatesAgree(saved.value)
  {
    FullCrawlKeepsAggregates(t, LegacyKey(env, folder), archive, files, now);
  }

  /** However the crawls and saves turn out, every folder of the catalogue still agrees with its file rows. */
  lemma {:induction false} LegacyPassKeepsAggregates(t: Tables, env: string, archive: string, folders: seq<string>,
                                                     world: World)
    requires TablesOk(t) && AllAggregatesAgree(t)
    ensures var t' := CrawlFolders(t, env, archive, folders, world); TablesOk(t') && AllAggregatesAgree(t')
    decreases |folders|
  {
    if folders != [] {
      var files := world.crawl(folders[0]);
      if files.None? {
        LegacyPassKeepsAggregates(t, env, archive, folders[1..], world);
      } else {
        SaveKeepsAggregates(t, env, archive, folders[0], files.value, world.now);
        var saved := Saved(t, env, archive, folders[0], files.value, world.now);
        if saved.Some? && world.save(folders[0]) == Saves {
          LegacyPassKeepsAggregates(saved.value, env, archive, folders[1..], world);
          assert CrawlFolders(t, env, archive, folders, world) ==
                 CrawlFolders(saved.value, env, archive, folders[1..], world);
        } else {
          assert CrawlFolders(t, env, archive, folders, world) in {t, saved.GetOr(t)};
        }
      }
    }
  }

  // ---- What a pass leaves ---------------------------------------------------------------------

  /** The pass gets to folder `i`, its crawl succeeds and its save takes effect. */
  predicate SavedAt(t: Tables, env: string, archive: string, folders: seq<string>, world: World, i: nat)
    requires i < |folders|
    decreases i
  {
    var files := world.crawl(folders[0]);
    if files.None? then i > 0 && SavedAt(t, env, archive, folders[1..], world, i - 1)
    else
      var saved := SaveFolder(t, LegacyKey(env, folders[0]), archive, CompileFolderMetadata(files.value), files.value,
                              world.now);
      && saved.Some? && world.save(folders[0]) != Refuses
      && (i > 0 ==> world.save(folders[0]) == Saves && SavedAt(saved.value, env, archive, folders[1..], world, i - 1))
  }

  /** The folder's row and its file rows are the same in both. */
  predicate Untouched(t: Tables, t': Tables, key: FolderKey) {
    && (key in t'.folders <==> key in t.folders)
    && (key in t.folders ==>
          t'.folders[key] == t.folders[key] &&
          FilesOf(t'.files, t.folders[key].id) == FilesOf(t.files, t.folders[key].id))
  }

  /** The folder holds exactly what its crawl listed, stamped with the time of the pass. */
  predicate HoldsCrawl(t: Tables, key: FolderKey, crawl: Option<seq<Listed>>, now: int) {
    && key in t.folders && t.folders[key].crawledAt == Some(now)
    && crawl.Some? && FilesOf(t.files, t.folders[key].id) == Rows(crawl.value)
  }

  lemma {:induction false} HoldsStays(t: Tables, t': Tables, key: FolderKey, crawl: Option<seq<Listed>>, now: int)
    requires HoldsCrawl(t, key, crawl, now) && Untouched(t, t', key)
    ensures HoldsCrawl(t', key, crawl, now)
  {
  }

  lemma {:induction false} SaveHolds(t: Tables, env: string, archive: string, folder: string, files: seq<Listed>,
                                     now: int)
    requires TablesOk(t) && Saved(t, env, archive, folder, files, now).Some?
    ensures TablesOk(Saved(t, env, archive, folder, files, now).value)
    ensures HoldsCrawl(Saved(t, env, archive, folder, files, now).value, LegacyKey(env, folder), Some(files), now)
  {
    var meta := CompileFolderMetadata(files);
    SaveFolderStores(t, LegacyKey(env, folder), archive, files, now);
    SaveFolderStamps(t, LegacyKey(env, folder), archive, meta, files, now);
    SaveFolderKeepsTables(t, LegacyKey(env, folder), archive, meta, files, now);
  }

  lemma {:induction false} LegacyKeyInjective(env: string, f: string, g: string)
    requires f != g
    ensures LegacyKey(env, f) != LegacyKey(env, g)
  {
    var p, q := LegacyKey(env, f).path, LegacyKey(env, g).path;
    var n := |"/" + LEGACY_ROOT + "/"|;
    assert p[n..|p| - 1] == f && q[n..|q| - 1] == g;
  }

  lemma {:induction false} SaveLeaves(t: Tables, env: string, archive: string, folder: string, files: seq<Listed>,
                                      now: int, key: FolderKey)
    requires TablesOk(t) && Saved(t, env, archive, folder, files, now).Some? && key != LegacyKey(env, folder)
    ensures TablesOk(Saved(t, env, archive, folder, files, now).value)
    ensures Untouched(t, Saved(t, env, archive, folder, files, now).value, key)
  {
    var meta := CompileFolderMetadata(files);
    SaveFolderKeepsTables(t, LegacyKey(env, folder), archive, meta, files, now);
    SaveFolderStamps(t, LegacyKey(env, folder), archive, meta, files, now);
    if key in t.folders {
      SaveFolderFrames(t, LegacyKey(env, folder), archive, meta, files, now, key);
    }
  }

  lemma {:induction false} UntouchedChain(t: Tables, t1: Tables, t2: Tables, key: FolderKey)
    requires Untouched(t, t1, key) && Untouched(t1, t2, key)
    ensures Untouched(t, t2, key)
  {
  }

  /** A folder the pass does not list is left alone. */
  lemma {:induction false} PassLeaves(t: Tables, env: string, archive: string, folders: seq<string>, world: World,
                                      key: FolderKey)
    requires TablesOk(t) && forall f :: f in folders ==> key != LegacyKey(env, f)
    ensures Untouched(t, CrawlFolders(t, env, archive, folders, world), key)
    decreases |folders|
  {
    if folders != [] {
      var files, rest := world.crawl(folders[0]), folders[1..];
      assert folders[0] in folders && forall f :: f in rest ==> f in folders;
      if files.None? {
        PassLeaves(t, env, archive, rest, world, key);
      } else if Saved(t, env, archive, folders[0], files.value, world.now).Some? {
        var t1 := Saved(t, env, archive, folders[0], files.value, world.now).value;
        SaveLeaves(t, env, archive, folders[0], files.value, world.now, key);
        if world.save(folders[0]) == Saves {
          PassLeaves(t1, env, archive, rest, world, key);
          UntouchedChain(t, t1, CrawlFolders(t1, env, archive, rest, world), key);
        }
      }
    }
  }

  lemma {:induction false} FirstOfPass(t: Tables, env: string, archive: string, folders: seq<string>, world: World)
    requires TablesOk(t) && folders != [] && forall f :: f in folders[1..] ==> f != folders[0]
    ensures var t', key := CrawlFolders(t, env, archive, folders, world), LegacyKey(env, folders[0]);
            if SavedAt(t, env, archive, folders, world, 0)
            then HoldsCrawl(t', key, world.crawl(folders[0]), world.now) else Untouched(t, t', key)
  {
    var files, rest, key := world.crawl(folders[0]), folders[1..], LegacyKey(env, folders[0]);
    forall f | f in rest ensures key != LegacyKey(env, f) {
      LegacyKeyInjective(env, f, folders[0]);
    }
    if files.None? {
      PassLeaves(t, env, archive, rest, world, key);
    } else if SavedAt(t, env, archive, folders, world, 0) {
      var t1 := Saved(t, env, archive, folders[0], files.value, world.now).value;
      SaveHolds(t, env, archive, folders[0], files.value, world.now);
      PassLeaves(t1, env, archive, rest, world, key);
      if world.save(folders[0]) == Saves {
        HoldsStays(t1, CrawlFolders(t1, env, archive, rest, world), key, files, world.now);
      }
    }
  }

  /** A pass over distinct folders, however the crawls and saves turn out: each folder it gets to, crawls and saves ends
      up holding exactly its crawl, and every other one, before or after the save that ends the pass, is left alone. */
  lemma {:induction false} PassStoresExactly(t: Tables, env: string, archive: string, folders: seq<string>,
                                             world: World, i: nat)
    requires TablesOk(t) && i < |folders| && forall j, k :: 0 <= j < k < |folders| ==> folders[j] != folders[k]
    ensures var t', key := CrawlFolders(t, env, archive, folders, world), LegacyKey(env, folders[i]);
            if SavedAt(t, env, archive, folders, world, i)
            then HoldsCrawl(t', key, world.crawl(folders[i]), world.now) else Untouched(t, t', key)
    decreases |folders|
  {
    var files, rest, key := world.crawl(folders[0]), folders[1..], LegacyKey(env, folders[i]);
    if i == 0 {
      FirstOfPass(t, env, archive, folders, world);
    } else if files.None? {
      PassStoresExactly(t, env, archive, rest, world, i - 1);
    } else if Saved(t, env, archive, folders[0], files.value, world.now).Some? {
      var t1 := Saved(t, env, archive, folders[0], files.value, world.now).value;
      LegacyKeyInjective(env, folders[i], folders[0]);
      SaveLeaves(t, env, archive, folders[0], files.value, world.now, key);
      if world.save(folders[0]) == Saves {
        PassStoresExactly(t1, env, archive, rest, world, i - 1);
        if !SavedAt(t1, env, archive, rest, world, i - 1) {
          UntouchedChain(t, t1, CrawlFolders(t1, env, archive, rest, world), key);
        }
      }
    }
  }
}
