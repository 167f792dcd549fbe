/** Two readings of the domain checklist: the one that creates landing directories and the one that syncs into them. */
module Selection {
  import opened Prelude
  import opened Text

  /** What the checklist says of a folder: `false`, or anything else (true, or a list of files). */
  datatype Value = Disabled | Enabled(selection: string)
  datatype Entry = Entry(folder: string, value: Value)
  datatype RootDirectory = RootDirectory(domains: seq<seq<Entry>>, folders: seq<Entry>)

  /** An environment of the checklist; the checklist lists them in file order. */
  datatype EnvData = EnvData(name: string, roots: seq<RootDirectory>)

  // ---- Case -----------------------------------------------------------------------------------

  function UpperChar(c: char): char {
    if 'a' <= c <= 'z' then (c as int - 32) as char else c
  }

  function Upper(s: string): (r: string)
    ensures |r| == |s|
  {
    seq(|s|, i requires 0 <= i < |s| => UpperChar(s[i]))
  }

  lemma {:induction false} SameUpToCase(a: string, b: string)
    ensures Upper(a) == Upper(b) <==> Lower(a) == Lower(b)
  {
    if Upper(a) == Upper(b) {
      forall i | 0 <= i < |a| ensures LowerChar(a[i]) == LowerChar(b[i]) {
        assert Upper(a)[i] == Upper(b)[i];
      }
      assert Lower(a) == Lower(b);
    }
    if Lower(a) == Lower(b) {
      forall i | 0 <= i < |a| ensures UpperChar(a[i]) == UpperChar(b[i]) {
        assert Lower(a)[i] == Lower(b)[i];
      }
      assert Upper(a) == Upper(b);
    }
  }

  // ---- Reading the checklist ------------------------------------------------------------------

  function Flatten(lists: seq<seq<Entry>>): seq<Entry> {
    if lists == [] then [] else lists[0] + Flatten(lists[1..])
  }

  /** The entries of an environment in the order both readers meet them. */
  function EntriesOf(roots: seq<RootDirectory>): seq<Entry> {
    if roots == [] then [] else Flatten(roots[0].domains) + roots[0].folders + EntriesOf(roots[1..])
  }

  lemma {:induction false} FlattenConcat(a: seq<seq<Entry>>, b: seq<seq<Entry>>)
    ensures Flatten(a + b) == Flatten(a) + Flatten(b)
  {
    if a == [] {
      assert a + b == b;
    } else {
      assert (a + b)[1..] == a[1..] + b;
      FlattenConcat(a[1..], b);
    }
  }

  lemma {:induction false} EntriesConcat(a: seq<RootDirectory>, b: seq<RootDirectory>)
    ensures EntriesOf(a + b) == EntriesOf(a) + EntriesOf(b)
  {
    if a == [] {
      assert a + b == b;
    } else {
      assert (a + b)[1..] == a[1..] + b;
      EntriesConcat(a[1..], b);
    }
  }

  /** Where an entry of the checklist comes up: roots in order, within a root the domains in order and then its own
      folders. */
  lemma {:induction false} EntriesInOrder(roots: seq<RootDirectory>, i: nat, k: nat)
    requires i < |roots| && k < |roots[i].domains|
    ensures
      var domains := roots[i].domains;
      EntriesOf(roots) == EntriesOf(roots[..i])
                          + (Flatten(domains[..k]) + domains[k] + Flatten(domains[k + 1..]) + roots[i].folders)
                          + EntriesOf(roots[i + 1..])
  {
    var domains := roots[i].domains;
    assert domains == domains[..k] + ([domains[k]] + domains[k + 1..]);
    FlattenConcat(domains[..k], [domains[k]] + domains[k + 1..]);
    assert roots == roots[..i] + ([roots[i]] + roots[i + 1..]);
    EntriesConcat(roots[..i], [roots[i]] + roots[i + 1..]);
    assert ([roots[i]] + roots[i + 1..])[1..] == roots[i + 1..];
    assert ([domains[k]] + domains[k + 1..])[1..] == domains[k + 1..];
  }

  function ActiveNames(entries: seq<Entry>): set<string> {
    set e | e in entries && e.value.Enabled? :: e.folder
  }

  function Tagged(env: string, names: set<string>): set<(string, string)> {
    set f | f in names :: (env, f)
  }

  /** The set the tree builder works from. */
  function ActiveFolders(config: seq<EnvData>): set<(string, string)> {
    if config == [] then {}
    else Tagged(Lower(config[0].name), ActiveNames(EntriesOf(config[0].roots))) + ActiveFolders(config[1..])
  }

  lemma {:induction false} ActiveNamesConcat(a: seq<Entry>, b: seq<Entry>)
    ensures ActiveNames(a + b) == ActiveNames(a) + ActiveNames(b)
  {
    forall f | f in ActiveNames(a) + ActiveNames(b) ensures f in ActiveNames(a + b) {
      var e :| (e in a || e in b) && e.value.Enabled? && e.folder == f;
      assert e in a + b;
    }
  }

  lemma {:induction false} TaggedConcat(env: string, a: set<string>, b: set<string>)
    ensures Tagged(env, a + b) == Tagged(env, a) + Tagged(env, b)
  {
  }

  /** `for folder, val in folders.items(): if val is not False: active.add(...)`. */
  method AddActive(active: set<(string, string)>, env: string, entries: seq<Entry>)
    returns (more: set<(string, string)>)
    ensures more == active + Tagged(env, ActiveNames(entries))
  {
    more := active;
    for i := 0 to |entries|
      invariant more == active + Tagged(env, ActiveNames(entries[..i]))
    {
      ActiveNamesConcat(entries[..i], [entries[i]]);
      assert entries[..i + 1] == entries[..i] + [entries[i]];
      assert ActiveNames([entries[i]]) == if entries[i].value.Enabled? then {entries[i].folder} else {} by {
        assert entries[i] in [entries[i]];
      }
      TaggedConcat(env, ActiveNames(entries[..i]), ActiveNames([entries[i]]));
      if entries[i].value != Disabled {
        more := more + {(env, entries[i].folder)};
      }
    }
    assert entries[..|entries|] == entries;
  }

  /** `get_active_folders`. */
  method GetActiveFolders(config: seq<EnvData>) returns (active: set<(string, string)>)
    ensures active == ActiveFolders(config)
  {
    active := {};
    for i := 0 to |config|
      invariant active + ActiveFolders(config[i..]) == ActiveFolders(config)
    {
      assert config[i..][1..] == config[i + 1..];
      var env, roots := Lower(config[i].name), config[i].roots;
      ghost var before := active;
      for j := 0 to |roots|
        invariant active + Tagged(env, ActiveNames(EntriesOf(roots[j..]))) ==
                  before + Tagged(env, ActiveNames(EntriesOf(roots)))
      {
        assert roots[j..][1..] == roots[j + 1..];
        RootConcat(env, roots[j], roots[j + 1..]);
        ghost var here := active;
        var domains := roots[j].domains;
        for k := 0 to |domains|
          invariant active + Tagged(env, ActiveNames(Flatten(domains[k..]))) ==
                    here + Tagged(env, ActiveNames(Flatten(domains)))
        {
          assert domains[k..][1..] == domains[k + 1..];
          ActiveNamesConcat(domains[k], Flatten(domains[k + 1..]));
          TaggedConcat(env, ActiveNames(domains[k]), ActiveNames(Flatten(domains[k + 1..])));
          active := AddActive(active, env, domains[k]);
        }
        active := AddActive(active, env, roots[j].folders);
      }
    }
  }

  lemma {:induction false} RootConcat(env: string, root: RootDirectory, rest: seq<RootDirectory>)
    ensures Tagged(env, ActiveNames(EntriesOf([root] + rest))) ==
            Tagged(env, ActiveNames(Flatten(root.domains))) + Tagged(env, ActiveNames(root.folders)) +
            Tagged(env, ActiveNames(EntriesOf(rest)))
  {
    assert ([root] + rest)[1..] == rest;
    ActiveNamesConcat(Flatten(root.domains) + root.folders, EntriesOf(rest));
    ActiveNamesConcat(Flatten(root.domains), root.folders);
    TaggedConcat(env, ActiveNames(Flatten(root.domains)) + ActiveNames(root.folders), ActiveNames(EntriesOf(rest)));
    TaggedConcat(env, ActiveNames(Flatten(root.domains)), ActiveNames(root.folders));
  }

  // ---- The tree builder -----------------------------------------------------------------------

  predicate IsTarget(active: set<(string, string)>, path: string) {
    exists a :: a in active && a.0 == Split(path, '/')[0] && a.1 in Split(path, '/')
  }

  function TargetFolders(active: set<(string, string)>, schema: seq<string>): seq<string> {
    if schema == [] then []
    else (if IsTarget(active, schema[0]) then [schema[0]] else []) + TargetFolders(active, schema[1..])
  }

  /** The target-folder loop of `generate_tree_for_my_entsoe_domains`; the set is visited in any order. */
  method SelectTargetFolders(active: set<(string, string)>, schema: seq<string>) returns (targets: seq<string>)
    ensures targets == TargetFolders(active, schema)
  {
    targets := [];
    for i := 0 to |schema|
      invariant targets + TargetFolders(active, schema[i..]) == TargetFolders(active, schema)
    {
      assert schema[i..][1..] == schema[i + 1..];
      var segments := Split(schema[i], '/');
      var rest, found := active, false;
      while rest != {} && !found
        invariant rest <= active
        invariant found ==> IsTarget(active, schema[i])
        invariant !found ==> forall a :: a in active - rest ==> !(a.0 == segments[0] && a.1 in segments)
        decreases |rest|
      {
        var a :| a in rest;
        rest := rest - {a};
        if segments[0] == a.0 && a.1 in segments {
          found := true;
        }
      }
      if found {
        targets := targets + [schema[i]];
      }
    }
  }

  // ---- The sync side --------------------------------------------------------------------------

  /** The first environment key equal up to case. */
  function FindEnv(config: seq<EnvData>, name: string): Option<EnvData> {
    if config == [] then None
    else if Upper(config[0].name) == Upper(name) then Some(config[0])
    else FindEnv(config[1..], name)
  }

  /** `active_folders[folder] = val` on a dictionary that remembers insertion order. */
  function SetItem(dict: seq<Entry>, e: Entry): seq<Entry> {
    if dict == [] then [e]
    else if dict[0].folder == e.folder then [e] + dict[1..]
    else [dict[0]] + SetItem(dict[1..], e)
  }

  function SetAll(dict: seq<Entry>, entries: seq<Entry>): seq<Entry>
    decreases |entries|
  {
    if entries == [] then dict
    else SetAll(if entries[0].value.Enabled? then SetItem(dict, entries[0]) else dict, entries[1..])
  }

  function ExtractedFolders(config: seq<EnvData>, envName: string): seq<Entry> {
    var env := FindEnv(config, envName);
    if env.None? || env.value.name == "" then [] else SetAll([], EntriesOf(env.value.roots))
  }

  lemma {:induction false} SetAllConcat(dict: seq<Entry>, a: seq<Entry>, b: seq<Entry>)
    ensures SetAll(dict, a + b) == SetAll(SetAll(dict, a), b)
    decreases |a|
  {
    if a == [] {
      assert a + b == b;
    } else {
      assert (a + b)[0] == a[0] && (a + b)[1..] == a[1..] + b;
      SetAllConcat(if a[0].value.Enabled? then SetItem(dict, a[0]) else dict, a[1..], b);
    }
  }

  method SetActive(dict: seq<Entry>, entries: seq<Entry>) returns (more: seq<Entry>)
    ensures more == SetAll(dict, entries)
  {
    more := dict;
    for i := 0 to |entries|
      invariant SetAll(more, entries[i..]) == SetAll(dict, entries)
    {
      assert entries[i..][1..] == entries[i + 1..];
      if entries[i].value != Disabled {
        more := SetItem(more, entries[i]);
      }
    }
  }

  /** `extract_active_folders`. */
  method ExtractActiveFolders(envName: string, config: seq<EnvData>) returns (folders: seq<Entry>)
    ensures folders == ExtractedFolders(config, envName)
  {
    folders := [];
    var env := FindEnv(config, envName);
    if env.None? || env.value.name == "" {
      return;
    }
    var roots := env.value.roots;
    for j := 0 to |roots|
      invariant SetAll(folders, EntriesOf(roots[j..])) == SetAll([], EntriesOf(roots))
    {
      assert roots[j..][1..] == roots[j + 1..];
      var domains := roots[j].domains;
      SetAllConcat(folders, Flatten(domains) + roots[j].folders, EntriesOf(roots[j + 1..]));
      SetAllConcat(folders, Flatten(domains), roots[j].folders);
      ghost var here := folders;
      for k := 0 to |domains|
        invariant SetAll(folders, Flatten(domains[k..])) == SetAll(here, Flatten(domains))
      {
        assert domains[k..][1..] == domains[k + 1..];
        SetAllConcat(folders, domains[k], Flatten(domains[k + 1..]));
        folders := SetActive(folders, domains[k]);
      }
      folders := SetActive(folders, roots[j].folders);
    }
  }

  datatype Mapping = Mapping(schemaPath: string, activeFolder: string, topLevel: string, remotePath: string,
                             value: Value)

  function FirstIn(folders: seq<Entry>, segments: seq<string>): Option<Entry> {
    if folders == [] then None
    else if folders[0].folder in segments then Some(folders[0])
    else FirstIn(folders[1..], segments)
  }

  predicate IsMapped(env: string, folders: seq<Entry>, path: string) {
    Split(path, '/')[0] == env && FirstIn(folders, Split(path, '/')).Some?
  }

  /** The mapping of a path that has one. */
  function MappingOf(folders: seq<Entry>, path: string): Mapping
    requires FirstIn(folders, Split(path, '/')).Some? && |Split(path, '/')| >= 2
  {
    var segments := Split(path, '/');
    var e := FirstIn(folders, segments).value;
    Mapping(path, e.folder, segments[1], Join(segments[2..], "/"), e.value)
  }

  /** None where the top-level segment of a mapped path is missing, which raises. */
  function Resolved(env: string, folders: seq<Entry>, schema: seq<string>): Option<seq<Mapping>> {
    if schema == [] then Some([])
    else if !IsMapped(env, folders, schema[0]) then Resolved(env, folders, schema[1..])
    else if |Split(schema[0], '/')| < 2 then None
    else After([MappingOf(folders, schema[0])], Resolved(env, folders, schema[1..]))
  }

  function After(mappings: seq<Mapping>, rest: Option<seq<Mapping>>): Option<seq<Mapping>> {
    if rest.None? then None else Some(mappings + rest.value)
  }

  lemma {:induction false} AfterMore(mappings: seq<Mapping>, m: Mapping, rest: Option<seq<Mapping>>)
    ensures After(mappings, After([m], rest)) == After(mappings + [m], rest)
  {
    if rest.Some? {
      assert mappings + ([m] + rest.value) == mappings + [m] + rest.value;
    }
  }

  lemma {:induction false} NothingBefore(rest: Option<seq<Mapping>>)
    ensures After([], rest) == rest
  {
    if rest.Some? {
      assert [] + rest.value == rest.value;
    }
  }

  /** `resolve_target_mappings`. */
  method ResolveTargetMappings(envName: string, folders: seq<Entry>, schema: seq<string>)
    returns (r: Option<seq<Mapping>>)
    ensures r == Resolved(Lower(envName), folders, schema)
  {
    var env := Lower(envName);
    var mappings := [];
    NothingBefore(Resolved(env, folders, schema));
    for i := 0 to |schema|
      invariant Resolved(env, folders, schema) == After(mappings, Resolved(env, folders, schema[i..]))
    {
      assert schema[i..][1..] == schema[i + 1..];
      var segments := Split(schema[i], '/');
      if segments[0] != env {
        continue;
      }
      var j := 0;
      while j < |folders|
        invariant 0 <= j <= |folders|
        invariant FirstIn(folders, segments) == FirstIn(folders[j..], segments)
      {
        assert folders[j..][1..] == folders[j + 1..];
        if folders[j].folder in segments {
          break;
        }
        j := j + 1;
      }
      if j < |folders| {
        if |segments| < 2 {
          return None;
        }
        AfterMore(mappings, MappingOf(folders, schema[i]), Resolved(env, folders, schema[i + 1..]));
        mappings := mappings +
                    [Mapping(schema[i], folders[j].folder, segments[1], Join(segments[2..], "/"), folders[j].value)];
      }
    }
    assert schema[|schema|..] == [] && mappings + [] == mappings;
    return Some(mappings);
  }

  // ---- Both select the same directories -------------------------------------------------------

  predicate KeysDistinctUpToCase(config: seq<EnvData>) {
    forall i, j :: 0 <= i < j < |config| ==> Lower(config[i].name) != Lower(config[j].name)
  }

  lemma {:induction false} SetItemNames(dict: seq<Entry>, e: Entry, f: string)
    ensures (exists x :: x in SetItem(dict, e) && x.folder == f) <==>
            f == e.folder || exists x :: x in dict && x.folder == f
  {
    var after := SetItem(dict, e);
    if dict == [] {
      assert after[0] == e;
    } else {
      assert dict == [dict[0]] + dict[1..] && after == [after[0]] + after[1..];
      if dict[0].folder == e.folder {
        assert after[0] == e && dict[0] in dict;
      } else {
        SetItemNames(dict[1..], e, f);
      }
    }
  }

  predicate Has(dict: seq<Entry>, f: string) {
    exists x :: x in dict && x.folder == f
  }

  lemma {:induction false} SetAllNames(dict: seq<Entry>, entries: seq<Entry>, f: string)
    ensures Has(SetAll(dict, entries), f) <==> Has(dict, f) || f in ActiveNames(entries)
    decreases |entries|
  {
    if entries != [] {
      var e := entries[0];
      assert entries == [e] + entries[1..];
      SetItemNames(dict, e, f);
      SetAllNames(if e.value.Enabled? then SetItem(dict, e) else dict, entries[1..], f);
      ActiveNamesConcat([e], entries[1..]);
      assert ActiveNames([e]) == if e.value.Enabled? then {e.folder} else {} by {
        assert e in [e];
      }
    }
  }

  function Lookup(dict: seq<Entry>, f: string): Option<Value> {
    if dict == [] then None else if dict[0].folder == f then Some(dict[0].value) else Lookup(dict[1..], f)
  }

  /** The value of the last enabled entry for a folder. */
  function LastEnabled(entries: seq<Entry>, f: string): Option<Value> {
    if entries == [] then None
    else
      var later := LastEnabled(entries[1..], f);
      if later.Some? then later
      else if entries[0].folder == f && entries[0].value.Enabled? then Some(entries[0].value)
      else None
  }

  lemma {:induction false} SetItemValue(dict: seq<Entry>, e: Entry, f: string)
    ensures Lookup(SetItem(dict, e), f) == if f == e.folder then Some(e.value) else Lookup(dict, f)
  {
    if dict != [] && dict[0].folder != e.folder {
      SetItemValue(dict[1..], e, f);
    }
  }

  /** Where the checklist names a folder twice, the last entry that is not `false` gives its value. */
  lemma {:induction false} LastValueWins(dict: seq<Entry>, entries: seq<Entry>, f: string)
    ensures Lookup(SetAll(dict, entries), f) == if LastEnabled(entries, f).Some? then LastEnabled(entries, f)
            else Lookup(dict, f)
    decreases |entries|
  {
    if entries != [] {
      var e := entries[0];
      SetItemValue(dict, e, f);
      LastValueWins(if e.value.Enabled? then SetItem(dict, e) else dict, entries[1..], f);
    }
  }

  /** The mapping is of a path of the environment, by the first active folder among its segments: that folder's name and
      value, the path's second segment, and the segments after it. */
  ghost predicate MappedRight(env: string, folders: seq<Entry>, m: Mapping) {
    var segments := Split(m.schemaPath, '/');
    && |segments| >= 2 && segments[0] == env
    && m.topLevel == segments[1] && SlashFree(m.topLevel)
    && m.remotePath == Join(segments[2..], "/")
    && exists i ::
         && 0 <= i < |folders| && folders[i].folder == m.activeFolder && folders[i].value == m.value
         && m.activeFolder in segments
         && forall j :: 0 <= j < i ==> folders[j].folder !in segments
  }

  lemma {:induction false} FirstInIs(folders: seq<Entry>, segments: seq<string>) returns (i: nat)
    requires FirstIn(folders, segments).Some?
    ensures i < |folders| && folders[i] == FirstIn(folders, segments).value && folders[i].folder in segments
    ensures forall j :: 0 <= j < i ==> folders[j].folder !in segments
  {
    if folders[0].folder in segments {
      i := 0;
    } else {
      i := FirstInIs(folders[1..], segments);
      forall j | 0 <= j < i + 1 ensures folders[j].folder !in segments {
        assert j > 0 ==> folders[j] == folders[1..][j - 1];
      }
      i := i + 1;
    }
  }

  lemma {:induction false} MappingOfIsRight(env: string, folders: seq<Entry>, path: string)
    requires IsMapped(env, folders, path) && |Split(path, '/')| >= 2
    ensures MappedRight(env, folders, MappingOf(folders, path))
  {
    var segments := Split(path, '/');
    var i := FirstInIs(folders, segments);
    PartsAreFree(path, '/');
    assert segments[1] in segments;
  }

  /** What the resolver returns for each path it maps: the first active folder in the path, with that folder's value. */
  lemma {:induction false} MappingsExact(env: string, folders: seq<Entry>, schema: seq<string>)
    requires Resolved(env, folders, schema).Some?
    ensures forall m :: m in Resolved(env, folders, schema).value ==>
              m.schemaPath in schema && MappedRight(env, folders, m)
  {
    if schema != [] {
      assert schema == [schema[0]] + schema[1..];
      MappingsExact(env, folders, schema[1..]);
      if IsMapped(env, folders, schema[0]) {
        MappingOfIsRight(env, folders, schema[0]);
      }
    }
  }

  /** Environment, top-level folder and remote path of a mapping make up its schema path again. */
  lemma {:induction false} MappingRejoins(folders: seq<Entry>, path: string)
    requires FirstIn(folders, Split(path, '/')).Some? && |Split(path, '/')| >= 2
    ensures var m := MappingOf(folders, path);
            path == Split(path, '/')[0] + "/" + m.topLevel + if |Split(path, '/')| > 2 then "/" + m.remotePath else ""
  {
    var segments := Split(path, '/');
    JoinSplit(path, '/');
    assert segments == [segments[0]] + segments[1..];
    JoinConcat([segments[0]], segments[1..], "/");
    if |segments| > 2 {
      assert segments[1..] == [segments[1]] + segments[2..];
      JoinConcat([segments[1]], segments[2..], "/");
    } else {
      assert segments[1..] == [segments[1]];
    }
  }

  lemma {:induction false} FirstInFinds(folders: seq<Entry>, segments: seq<string>)
    ensures FirstIn(folders, segments).Some? <==> exists f :: f in segments && Has(folders, f)
  {
    if folders != [] {
      assert folders == [folders[0]] + folders[1..];
      FirstInFinds(folders[1..], segments);
      if folders[0].folder in segments {
        assert Has(folders, folders[0].folder);
      } else {
        forall f | f in segments ensures Has(folders, f) <==> Has(folders[1..], f) {
          if Has(folders, f) {
            var x :| x in folders && x.folder == f;
            assert x in folders[1..];
          }
          if Has(folders[1..], f) {
            var x :| x in folders[1..] && x.folder == f;
            assert x in folders;
          }
        }
      }
    }
  }

  /** The folder is enabled under some key equal to the name up to case. */
  predicate EnabledUnderSome(config: seq<EnvData>, envName: string, f: string) {
    exists k :: 0 <= k < |config| && EnabledUnder(config[k], envName, f)
  }

  predicate EnabledUnder(env: EnvData, envName: string, f: string) {
    Lower(env.name) == Lower(envName) && f in ActiveNames(EntriesOf(env.roots))
  }

  /** The folder is enabled under the first such key; an empty key counts as none. */
  predicate EnabledUnderFirst(config: seq<EnvData>, envName: string, f: string) {
    var env := FindEnv(config, envName);
    env.Some? && env.value.name != "" && f in ActiveNames(EntriesOf(env.value.roots))
  }

  lemma {:induction false} ActiveExactly(config: seq<EnvData>, envName: string, f: string)
    ensures (Lower(envName), f) in ActiveFolders(config) <==> EnabledUnderSome(config, envName, f)
  {
    if config != [] {
      var rest := config[1..];
      ActiveExactly(rest, envName, f);
      if k :| 0 <= k < |config| && EnabledUnder(config[k], envName, f) {
        assert k > 0 ==> rest[k - 1] == config[k];
      }
      if k :| 0 <= k < |rest| && EnabledUnder(rest[k], envName, f) {
        assert config[k + 1] == rest[k];
      }
    }
  }

  lemma {:induction false} FindEnvFinds(config: seq<EnvData>, envName: string)
    ensures FindEnv(config, envName).Some? ==>
              exists k ::
                0 <= k < |config| && config[k] == FindEnv(config, envName).value &&
                Lower(config[k].name) == Lower(envName)
  {
    if config != [] {
      SameUpToCase(config[0].name, envName);
      FindEnvFinds(config[1..], envName);
      if FindEnv(config[1..], envName).Some? {
        var k :| 0 <= k < |config[1..]| && config[1..][k] == FindEnv(config[1..], envName).value &&
                 Lower(config[1..][k].name) == Lower(envName);
        assert config[k + 1] == config[1..][k];
      }
    }
  }

  lemma {:induction false} FirstIsSome(config: seq<EnvData>, envName: string, f: string)
    ensures Has(ExtractedFolders(config, envName), f) <==> EnabledUnderFirst(config, envName, f)
    ensures EnabledUnderFirst(config, envName, f) ==> EnabledUnderSome(config, envName, f)
  {
    FindEnvFinds(config, envName);
    if FindEnv(config, envName).Some? {
      SetAllNames([], EntriesOf(FindEnv(config, envName).value.roots), f);
    }
  }

  /** A path of the environment is a directory to create if it has a folder enabled under any key equal up to case, and
      one to sync into if it has a folder enabled under the first of these keys. */
  lemma {:induction false} TargetIsMapped(config: seq<EnvData>, envName: string, path: string)
    requires Split(path, '/')[0] == Lower(envName)
    ensures IsTarget(ActiveFolders(config), path) <==>
            exists f :: f in Split(path, '/') && EnabledUnderSome(config, envName, f)
    ensures IsMapped(Lower(envName), ExtractedFolders(config, envName), path) <==>
            exists f :: f in Split(path, '/') && EnabledUnderFirst(config, envName, f)
  {
    var env, segments, folders := Lower(envName), Split(path, '/'), ExtractedFolders(config, envName);
    FirstInFinds(folders, segments);
    forall f ensures (env, f) in ActiveFolders(config) <==> EnabledUnderSome(config, envName, f)
             ensures Has(folders, f) <==> EnabledUnderFirst(config, envName, f)
    {
      ActiveExactly(config, envName, f);
      FirstIsSome(config, envName, f);
    }
    if f :| f in segments && EnabledUnderSome(config, envName, f) {
      assert (env, f) in ActiveFolders(config) && (env, f).1 in segments;
    }
  }

  function OfEnv(env: string, paths: seq<string>): seq<string> {
    if paths == [] then []
    else (if Split(paths[0], '/')[0] == env then [paths[0]] else []) + OfEnv(env, paths[1..])
  }

  function SchemaPaths(mappings: seq<Mapping>): (paths: seq<string>)
    ensures |paths| == |mappings|
  {
    seq(|mappings|, i requires 0 <= i < |mappings| => mappings[i].schemaPath)
  }

  lemma {:induction false} OfEnvConcat(env: string, a: seq<string>, b: seq<string>)
    ensures OfEnv(env, a + b) == OfEnv(env, a) + OfEnv(env, b)
  {
    if a == [] {
      assert a + b == b;
    } else {
      assert (a + b)[0] == a[0] && (a + b)[1..] == a[1..] + b;
      OfEnvConcat(env, a[1..], b);
    }
  }

  /** Every path of the environment with a folder enabled under some key also has one enabled under the first key. */
  predicate FirstKeyCovers(config: seq<EnvData>, envName: string, schema: seq<string>) {
    forall path :: path in schema && Split(path, '/')[0] == Lower(envName) ==> PathCovered(config, envName, path)
  }

  predicate PathCovered(config: seq<EnvData>, envName: string, path: string) {
    (exists f :: f in Split(path, '/') && EnabledUnderSome(config, envName, f)) ==>
    exists f :: f in Split(path, '/') && EnabledUnderFirst(config, envName, f)
  }

  /** What one schema entry adds on either side. */
  function Kept(keep: bool, path: string): seq<string> {
    if keep then [path] else []
  }

  lemma {:induction false} TargetsOfFirst(config: seq<EnvData>, envName: string, schema: seq<string>)
    requires schema != []
    ensures var env, active := Lower(envName), ActiveFolders(config);
            OfEnv(env, TargetFolders(active, schema)) ==
            Kept(Split(schema[0], '/')[0] == env && IsTarget(active, schema[0]), schema[0]) +
            OfEnv(env, TargetFolders(active, schema[1..]))
  {
    var head := Kept(IsTarget(ActiveFolders(config), schema[0]), schema[0]);
    OfEnvConcat(Lower(envName), head, TargetFolders(ActiveFolders(config), schema[1..]));
    assert head != [] ==> head[1..] == [];
  }

  lemma {:induction false} MappingsOfFirst(env: string, folders: seq<Entry>, schema: seq<string>)
    requires schema != [] && Resolved(env, folders, schema).Some?
    ensures Resolved(env, folders, schema[1..]).Some?
    ensures SchemaPaths(Resolved(env, folders, schema).value) ==
            Kept(IsMapped(env, folders, schema[0]), schema[0]) + SchemaPaths(Resolved(env, folders, schema[1..]).value)
  {
    if IsMapped(env, folders, schema[0]) {
      var rest := Resolved(env, folders, schema[1..]).value;
      assert SchemaPaths([MappingOf(folders, schema[0])] + rest) == [schema[0]] + SchemaPaths(rest);
    } else {
      assert [] + SchemaPaths(Resolved(env, folders, schema[1..]).value) ==
             SchemaPaths(Resolved(env, folders, schema[1..]).value);
    }
  }

  lemma {:induction false} KeptEqually<T>(x: T, keepA: bool, a: seq<T>, keepB: bool, b: seq<T>)
    requires (keepB ==> keepA) && |b| <= |a|
    ensures var l, r := (if keepA then [x] else []) + a, (if keepB then [x] else []) + b;
            |r| <= |l| && (l == r <==> keepA == keepB && a == b)
  {
    var l, r := (if keepA then [x] else []) + a, (if keepB then [x] else []) + b;
    if keepA == keepB && l == r {
      assert a == l[|l| - |a|..] && b == r[|r| - |b|..];
    }
  }

  /** The directories created for an environment are, in order and once per schema entry, the directories sync resolves,
      exactly when the first matching key covers the others. */
  lemma {:induction false} SelectorsAgreeExactly(config: seq<EnvData>, envName: string, schema: seq<string>)
    requires Resolved(Lower(envName), ExtractedFolders(config, envName), schema).Some?
    ensures OfEnv(Lower(envName), TargetFolders(ActiveFolders(config), schema)) ==
            SchemaPaths(Resolved(Lower(envName), ExtractedFolders(config, envName), schema).value)
            <==> FirstKeyCovers(config, envName, schema)
    ensures |SchemaPaths(Resolved(Lower(envName), ExtractedFolders(config, envName), schema).value)| <=
            |OfEnv(Lower(envName), TargetFolders(ActiveFolders(config), schema))|
    decreases |schema|
  {
    if schema != [] {
      var env, folders, path, rest := Lower(envName), ExtractedFolders(config, envName), schema[0], schema[1..];
      TargetsOfFirst(config, envName, schema);
      MappingsOfFirst(env, folders, schema);
      SelectorsAgreeExactly(config, envName, rest);
      var target := Split(path, '/')[0] == env && IsTarget(ActiveFolders(config), path);
      var mapped := IsMapped(env, folders, path);
      if Split(path, '/')[0] == env {
        TargetIsMapped(config, envName, path);
        MappedIsTarget(config, envName, path);
      }
      KeptEqually(path, target, OfEnv(env, TargetFolders(ActiveFolders(config), rest)), mapped,
                  SchemaPaths(Resolved(env, folders, rest).value));
      CoversFirst(config, envName, schema);
    }
  }

  lemma {:induction false} MappedIsTarget(config: seq<EnvData>, envName: string, path: string)
    ensures (exists f :: f in Split(path, '/') && EnabledUnderFirst(config, envName, f)) ==>
              exists f :: f in Split(path, '/') && EnabledUnderSome(config, envName, f)
  {
    if f :| f in Split(path, '/') && EnabledUnderFirst(config, envName, f) {
      FirstIsSome(config, envName, f);
    }
  }

  lemma {:induction false} CoversFirst(config: seq<EnvData>, envName: string, schema: seq<string>)
    requires schema != []
    ensures FirstKeyCovers(config, envName, schema) <==>
            && (Split(schema[0], '/')[0] == Lower(envName) ==> PathCovered(config, envName, schema[0]))
            && FirstKeyCovers(config, envName, schema[1..])
  {
    assert schema == [schema[0]] + schema[1..];
  }

  /** So with keys distinct up to case they always agree. */
  lemma {:induction false} SelectorsAgree(config: seq<EnvData>, envName: string, schema: seq<string>)
    requires KeysDistinctUpToCase(config) && envName != ""
    requires Resolved(Lower(envName), ExtractedFolders(config, envName), schema).Some?
    ensures OfEnv(Lower(envName), TargetFolders(ActiveFolders(config), schema)) ==
            SchemaPaths(Resolved(Lower(envName), ExtractedFolders(config, envName), schema).value)
  {
    forall path | path in schema ensures PathCovered(config, envName, path) {
      if f :| f in Split(path, '/') && EnabledUnderSome(config, envName, f) {
        OnlyKeyIsFirst(config, envName, f);
      }
    }
    SelectorsAgreeExactly(config, envName, schema);
  }

  lemma {:induction false} OnlyKeyIsFirst(config: seq<EnvData>, envName: string, f: string)
    requires KeysDistinctUpToCase(config) && envName != "" && EnabledUnderSome(config, envName, f)
    ensures EnabledUnderFirst(config, envName, f)
  {
    var k :| 0 <= k < |config| && EnabledUnder(config[k], envName, f);
    SameUpToCase(config[k].name, envName);
    FindEnvMatches(config, envName, k);
    FindEnvFinds(config, envName);
  }

  lemma {:induction false} FindEnvMatches(config: seq<EnvData>, envName: string, k: nat)
    requires k < |config| && Upper(config[k].name) == Upper(envName)
    ensures FindEnv(config, envName).Some?
  {
    if k > 0 && Upper(config[0].name) != Upper(envName) {
      FindEnvMatches(config[1..], envName, k - 1);
    }
  }

  /** The resolver raises exactly when the bare environment name is itself a schema path and an active folder. */
  lemma {:induction false} ResolverRaisesExactly(env: string, folders: seq<Entry>, schema: seq<string>)
    requires SlashFree(env)
    ensures Resolved(env, folders, schema).None? <==> env in schema && Has(folders, env)
    decreases |schema|
  {
    if schema != [] {
      var path := schema[0];
      ResolverRaisesExactly(env, folders, schema[1..]);
      assert schema == [path] + schema[1..];
      FirstInFinds(folders, Split(path, '/'));
      SplitWithoutSeparator(env, '/');
      if Split(path, '/')[0] == env && |Split(path, '/')| < 2 {
        OnePiece(path);
      }
    }
  }

  lemma {:induction false} OnePiece(s: string)
    requires |Split(s, '/')| == 1
    ensures Split(s, '/') == [s]
  {
    if s != "" {
      OnePiece(s[1..]);
      assert [s[0]] + s[1..] == s;
    }
  }

  const TWIN: EnvData := EnvData("iop", [RootDirectory([], [Entry("a", Enabled("all"))])])

  /** Two environment keys that differ only in case; only the second has an active folder. */
  const TWINS: seq<EnvData> := [EnvData("IOP", []), TWIN]

  lemma {:induction false} TwinIsActive()
    ensures ("iop", "a") in ActiveFolders(TWINS)
  {
    var e := Entry("a", Enabled("all"));
    assert EntriesOf(TWIN.roots) == Flatten([]) + [e] + EntriesOf(TWIN.roots[1..]) == [e];
    assert e in [e] && "a" in ActiveNames([e]);
    assert Lower("iop") == "iop" && ("iop", "a") in Tagged("iop", ActiveNames([e]));
    assert ("iop", "a") in ActiveFolders([TWIN]);
    assert TWINS[1..] == [TWIN];
  }

  lemma {:induction false} TwinPath()
    ensures Split("iop/t/a", '/') == ["iop", "t", "a"]
  {
    assert "iop/t/a" == "iop/t" + ['/'] + "a" && "iop/t" == "iop" + ['/'] + "t";
    SplitConcat("iop/t", '/', "a");
    SplitConcat("iop", '/', "t");
    SplitWithoutSeparator("iop", '/');
    SplitWithoutSeparator("t", '/');
    SplitWithoutSeparator("a", '/');
  }

  /** With such keys the tree builder merges both and sync reads the first. */
  lemma {:induction false} CaseTwinsDisagree()
    ensures TargetFolders(ActiveFolders(TWINS), ["iop/t/a"]) == ["iop/t/a"]
    ensures Resolved("iop", ExtractedFolders(TWINS, "IOP"), ["iop/t/a"]) == Some([])
  {
    TwinIsActive();
    TwinPath();
    var schema, a := ["iop/t/a"], ("iop", "a");
    assert schema[1..] == [];
    assert a in ActiveFolders(TWINS) && a.0 == Split(schema[0], '/')[0] && a.1 in Split(schema[0], '/');
    assert IsTarget(ActiveFolders(TWINS), schema[0]);
    assert ExtractedFolders(TWINS, "IOP") == SetAll([], EntriesOf([])) == [];
    assert Resolved("iop", [], schema) == Resolved("iop", [], schema[1..]) == Some([]);
    assert TargetFolders(ActiveFolders(TWINS), schema) == schema + TargetFolders(ActiveFolders(TWINS), schema[1..]) ==
           schema;
  }
}
