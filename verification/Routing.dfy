/** From a remote folder to its data domain, its landing path, and back to a data contract. */
module Routing {
  import opened Prelude
  import opened Text
  import Sync

  /** One publication of the classifier: its key and the name of its data contract. */
  datatype Publication = Publication(key: string, fmsName: string)
  datatype Group = Group(domain: string, items: seq<Publication>)

  /** The groups in configuration order. */
  datatype Classifier = Classifier(groups: seq<Group>, fallback: string)

  /** Domains are the keys of a dictionary. */
  predicate DomainsDistinct(groups: seq<Group>) {
    forall i, j :: 0 <= i < j < |groups| ==> groups[i].domain != groups[j].domain
  }

  // ---- The classifier -------------------------------------------------------------------------

  predicate PrefixIgnoringCase(p: Publication, folder: string) {
    Lower(p.fmsName) <= Lower(folder)
  }

  function FirstIgnoringCase(items: seq<Publication>, folder: string): Option<Publication> {
    if items == [] then None
    else if PrefixIgnoringCase(items[0], folder) then Some(items[0])
    else FirstIgnoringCase(items[1..], folder)
  }

  datatype Hit = Hit(domain: string, item: Publication)

  function FirstHit(groups: seq<Group>, folder: string): Option<Hit> {
    if groups == [] then None
    else
      var item := FirstIgnoringCase(groups[0].items, folder);
      if item.Some? then Some(Hit(groups[0].domain, item.value)) else FirstHit(groups[1..], folder)
  }

  /** `classify_folder`. */
  function ClassifyFolder(c: Classifier, folder: string): string {
    var hit := FirstHit(c.groups, folder);
    if hit.Some? then hit.value.domain else c.fallback
  }

  // ---- The landing schema ---------------------------------------------------------------------

  datatype FolderRecord = FolderRecord(env: string, domain: string, path: string)
  datatype SchemaRow = SchemaRow(s3Path: string, env: string, domain: string, folder: string)

  /** The schema row of a catalogued folder; a path of fewer than two segments has none. */
  function SchemaRowOf(r: FolderRecord): Option<SchemaRow> {
    var parts := Split(Strip(r.path, '/'), '/');
    if |parts| < 2 then None
    else Some(SchemaRow(Lower(r.env) + "/" + parts[0] + "/" + r.domain + "/" + parts[1], Lower(r.env), r.domain,
                        parts[1]))
  }

  /** The table by path: of rows with one path the last stays. */
  function SchemaOf(rows: seq<FolderRecord>): map<string, SchemaRow> {
    if rows == [] then map[]
    else
      var row := SchemaRowOf(rows[|rows| - 1]);
      var before := SchemaOf(rows[..|rows| - 1]);
      if row.Some? then before[row.value.s3Path := row.value] else before
  }

  lemma {:induction false} SchemaExact(rows: seq<FolderRecord>, path: string)
    ensures path in SchemaOf(rows) <==>
            exists r :: r in rows && SchemaRowOf(r).Some? && SchemaRowOf(r).value.s3Path == path
    ensures path in SchemaOf(rows) ==>
              SchemaOf(rows)[path].s3Path == path && exists r ::
              r in rows && SchemaRowOf(r) == Some(SchemaOf(rows)[path])
  {
    if rows != [] {
      var last := rows[|rows| - 1];
      assert rows == rows[..|rows| - 1] + [last];
      SchemaExact(rows[..|rows| - 1], path);
    }
  }

  /** How the replacing transaction ends: the delete and the inserts take effect together or not at all. */
  datatype Commit = Commits | RollsBack | CommitsButRaises

  class LandingFoldersSchema {
    var table: map<string, SchemaRow>

    /** `build_landing_bucket_schema`: replace the table, unless there is nothing to put in it. */
    method Build(rows: seq<FolderRecord>, commit: Commit) returns (raised: bool)
      modifies this
      ensures table == if SchemaOf(rows) == map[] || commit == RollsBack then old(table) else SchemaOf(rows)
      ensures raised <==> SchemaOf(rows) != map[] && commit != Commits
    {
      var unique := map[];
      for i := 0 to |rows|
        invariant unique == SchemaOf(rows[..i])
      {
        assert rows[..i + 1][..i] == rows[..i];
        var row := SchemaRowOf(rows[i]);
        if row.Some? {
          unique := unique[row.value.s3Path := row.value];
        }
      }
      assert rows[..|rows|] == rows;
      if unique == map[] {
        return false;
      }
      var before := table;
      table := map[];
      table := table + unique;
      if commit == RollsBack {
        table := before;
      }
      return commit != Commits;
    }
  }

  // ---- The router -----------------------------------------------------------------------------

  function FindGroup(groups: seq<Group>, domain: string): Option<seq<Publication>> {
    if groups == [] then None
    else if groups[0].domain == domain then Some(groups[0].items)
    else FindGroup(groups[1..], domain)
  }

  /** The candidate itself if it is a contract name, empty otherwise. */
  function ExactMatch(items: seq<Publication>, candidate: string): string {
    if items == [] then "" else if items[0].fmsName == candidate then candidate else ExactMatch(items[1..], candidate)
  }

  /** The first contract name the candidate starts with, empty if there is none. */
  function PrefixMatch(items: seq<Publication>, candidate: string): string {
    if items == [] then ""
    else if items[0].fmsName <= candidate then items[0].fmsName
    else PrefixMatch(items[1..], candidate)
  }

  function FindKey(items: seq<Publication>, key: string): Option<string> {
    if items == [] then None else if items[0].key == key then Some(items[0].fmsName) else FindKey(items[1..], key)
  }

  /** The contract of the first group that has the key. */
  function FlatMatch(groups: seq<Group>, key: string): string {
    if groups == [] then ""
    else
      var found := FindKey(groups[0].items, key);
      if found.Some? then found.value else FlatMatch(groups[1..], key)
  }

  /** The contract of an S3 path with these segments; empty stands for none. */
  function ContractOf(c: Classifier, domain: string, candidate: string): string {
    var items := if candidate != "" then FindGroup(c.groups, domain) else None;
    var exact := if items.Some? then ExactMatch(items.value, candidate) else "";
    var hierarchical := if items.Some? && exact == "" then PrefixMatch(items.value, candidate) else exact;
    if hierarchical != "" then hierarchical else FlatMatch(c.groups, domain)
  }

  datatype Verdict = Malformed | Unclassified | Bypassed | Routed(contract: string, domain: string)

  const GIANT_BYPASS: string := "OfferedTransferCapacitiesContinuousEvolution_11.1_r3"

  /** What the staging job makes of one landing row. */
  function Route(c: Classifier, s3Key: string): Verdict {
    var parts := Split(Strip(s3Key, '/'), '/');
    if |parts| < 4 then Malformed else Judge(c, parts[2], parts[3])
  }

  function Judge(c: Classifier, domain: string, candidate: string): Verdict {
    var contract := ContractOf(c, domain, candidate);
    if contract == "" then Unclassified
    else if contract == GIANT_BYPASS then Bypassed
    else Routed(contract, domain)
  }

  // ---- What the router decides ----------------------------------------------------------------

  predicate Names(items: seq<Publication>, contract: string) {
    exists p :: p in items && p.fmsName == contract
  }

  predicate HasKey(items: seq<Publication>, key: string) {
    exists p :: p in items && p.key == key
  }

  /** The first group of that domain. */
  predicate GroupAt(groups: seq<Group>, domain: string, g: int) {
    0 <= g < |groups| && groups[g].domain == domain && forall h :: 0 <= h < g ==> groups[h].domain != domain
  }

  /** The first item whose contract name the candidate starts with. */
  predicate PrefixAt(items: seq<Publication>, candidate: string, i: int) {
    && 0 <= i < |items| && items[i].fmsName <= candidate
    && forall j :: 0 <= j < i ==> !(items[j].fmsName <= candidate)
  }

  /** The first item with the key in the first group that has one. */
  predicate FlatAt(groups: seq<Group>, key: string, g: int, i: int) {
    && 0 <= g < |groups| && 0 <= i < |groups[g].items| && groups[g].items[i].key == key
    && (forall h :: 0 <= h < g ==> !HasKey(groups[h].items, key))
    && (forall j :: 0 <= j < i ==> groups[g].items[j].key != key)
  }

  lemma {:induction false} FindGroupIs(groups: seq<Group>, domain: string)
    ensures forall g :: GroupAt(groups, domain, g) ==> FindGroup(groups, domain) == Some(groups[g].items)
    ensures (forall g :: !GroupAt(groups, domain, g)) ==> FindGroup(groups, domain).None?
  {
    if groups != [] {
      FindGroupIs(groups[1..], domain);
      forall g | GroupAt(groups, domain, g) && g > 0 ensures GroupAt(groups[1..], domain, g - 1) {
        assert forall h :: 0 <= h < g - 1 ==> groups[1..][h] == groups[h + 1];
      }
      if groups[0].domain == domain {
        assert GroupAt(groups, domain, 0);
      } else if g :| GroupAt(groups[1..], domain, g) {
        assert forall h :: 0 < h < g + 1 ==> groups[h] == groups[1..][h - 1];
        assert GroupAt(groups, domain, g + 1);
      }
    }
  }

  lemma {:induction false} PrefixMatchIs(items: seq<Publication>, candidate: string)
    ensures forall i :: PrefixAt(items, candidate, i) ==> PrefixMatch(items, candidate) == items[i].fmsName
    ensures (forall i :: !PrefixAt(items, candidate, i)) ==> PrefixMatch(items, candidate) == ""
  {
    if items != [] {
      PrefixMatchIs(items[1..], candidate);
      forall i | PrefixAt(items, candidate, i) && i > 0 ensures PrefixAt(items[1..], candidate, i - 1) {
        assert forall j :: 0 <= j < i - 1 ==> items[1..][j] == items[j + 1];
      }
      if items[0].fmsName <= candidate {
        assert PrefixAt(items, candidate, 0);
      } else if i :| PrefixAt(items[1..], candidate, i) {
        assert forall j :: 0 < j < i + 1 ==> items[j] == items[1..][j - 1];
        assert PrefixAt(items, candidate, i + 1);
      }
    }
  }

  lemma {:induction false} FindKeyIs(items: seq<Publication>, key: string, i: nat)
    requires i < |items| && items[i].key == key && forall j :: 0 <= j < i ==> items[j].key != key
    ensures FindKey(items, key) == Some(items[i].fmsName)
  {
    if i > 0 {
      FindKeyIs(items[1..], key, i - 1);
    }
  }

  /** The flat lookup gives the contract of the first item with the key in the first group that has one, and none if no
      group has. */
  lemma {:induction false} FlatMatchExactly(groups: seq<Group>, key: string)
    ensures forall g, i :: FlatAt(groups, key, g, i) ==> FlatMatch(groups, key) == groups[g].items[i].fmsName
    ensures (forall g :: g in groups ==> !HasKey(g.items, key)) ==> FlatMatch(groups, key) == ""
  {
    if groups != [] {
      assert groups == [groups[0]] + groups[1..];
      FlatMatchExactly(groups[1..], key);
      FindKeyFinds(groups[0].items, key);
      forall g, i | FlatAt(groups, key, g, i) ensures FlatMatch(groups, key) == groups[g].items[i].fmsName {
        if g == 0 {
          FindKeyIs(groups[0].items, key, i);
        } else {
          assert forall h :: 0 <= h < g - 1 ==> groups[1..][h] == groups[h + 1];
          assert FlatAt(groups[1..], key, g - 1, i);
        }
      }
    }
  }

  /** Within the group its first segment names. */
  ghost predicate ContractWithin(c: Classifier, items: seq<Publication>, domain: string, candidate: string) {
    if Names(items, candidate) then ContractOf(c, domain, candidate) == candidate
    else
      && (forall i :: PrefixAt(items, candidate, i) && items[i].fmsName != "" ==>
            ContractOf(c, domain, candidate) == items[i].fmsName)
      && ((forall i :: PrefixAt(items, candidate, i) ==> items[i].fmsName == "") ==>
            ContractOf(c, domain, candidate) == FlatMatch(c.groups, domain))
  }

  lemma {:induction false} ContractInGroup(c: Classifier, domain: string, candidate: string, g: int)
    requires candidate != "" && GroupAt(c.groups, domain, g)
    ensures ContractWithin(c, c.groups[g].items, domain, candidate)
  {
    FindGroupIs(c.groups, domain);
    ExactMatchExact(c.groups[g].items, candidate);
    PrefixMatchIs(c.groups[g].items, candidate);
    if (forall i :: PrefixAt(c.groups[g].items, candidate, i) ==> c.groups[g].items[i].fmsName == "") {
      assert PrefixMatch(c.groups[g].items, candidate) == "";
    }
  }

  /** The contract of two path segments. If the first names a group of the classifier: the second segment itself if it
      is a contract of the group, else the first contract of the group it starts with. If that gives none, or there is
      no such group, what the flat lookup finds under the first segment. */
  lemma {:induction false} ContractExactly(c: Classifier, domain: string, candidate: string)
    ensures candidate == "" || (forall g :: !GroupAt(c.groups, domain, g)) ==>
              ContractOf(c, domain, candidate) == FlatMatch(c.groups, domain)
    ensures candidate != "" ==>
              forall g :: GroupAt(c.groups, domain, g) ==> ContractWithin(c, c.groups[g].items, domain, candidate)
  {
    FindGroupIs(c.groups, domain);
    forall g | candidate != "" && GroupAt(c.groups, domain, g)
      ensures ContractWithin(c, c.groups[g].items, domain, candidate)
    {
      ContractInGroup(c, domain, candidate, g);
    }
  }

  /** The verdict on a landing key: malformed with fewer than four segments; otherwise by the contract of its third and
      fourth, which may be missing or be the giant that is left out. */
  lemma {:induction false} VerdictExactly(c: Classifier, s3Key: string)
    ensures
      var parts, v := Split(Strip(s3Key, '/'), '/'), Route(c, s3Key);
      && (v.Malformed? <==> |parts| < 4)
      && (|parts| >= 4 ==>
            var contract := ContractOf(c, parts[2], parts[3]);
            && (v.Unclassified? <==> contract == "")
            && (v.Bypassed? <==> contract == "OfferedTransferCapacitiesContinuousEvolution_11.1_r3")
            && (v.Routed? ==> v == Routed(contract, parts[2])))
  {
  }

  // ---- They agree -----------------------------------------------------------------------------

  predicate AllNamed(c: Classifier) {
    forall g, p :: g in c.groups && p in g.items ==> p.fmsName != ""
  }

  /** The flat lookup takes the contract of a publication with that key, and finds nothing only if no group has the key
      or the one found has no contract name. */
  lemma {:induction false} FlatMatchFinds(groups: seq<Group>, key: string)
    ensures FlatMatch(groups, key) != "" ==>
            exists g, p :: g in groups && p in g.items && p.key == key && p.fmsName == FlatMatch(groups, key)
    ensures (forall g :: g in groups ==> !HasKey(g.items, key)) ==> FlatMatch(groups, key) == ""
  {
    if groups != [] {
      var items := groups[0].items;
      assert groups == [groups[0]] + groups[1..];
      FindKeyFinds(items, key);
      FlatMatchFinds(groups[1..], key);
    }
  }

  lemma {:induction false} FindKeyFinds(items: seq<Publication>, key: string)
    ensures FindKey(items, key).Some? <==> HasKey(items, key)
    ensures FindKey(items, key).Some? ==>
            exists p :: p in items && p.key == key && p.fmsName == FindKey(items, key).value
  {
    if items != [] {
      FindKeyFinds(items[1..], key);
      assert items == [items[0]] + items[1..];
    }
  }

  lemma {:induction false} ExactMatchExact(items: seq<Publication>, candidate: string)
    requires candidate != ""
    ensures ExactMatch(items, candidate) == if Names(items, candidate) then candidate else ""
  {
    if items != [] {
      ExactMatchExact(items[1..], candidate);
      assert items == [items[0]] + items[1..];
    }
  }

  lemma {:induction false} PrefixMatchFinds(items: seq<Publication>, candidate: string)
    requires forall p :: p in items ==> p.fmsName != ""
    ensures PrefixMatch(items, candidate) != "" <==> exists p :: p in items && p.fmsName <= candidate
    ensures PrefixMatch(items, candidate) != "" ==>
            PrefixMatch(items, candidate) <= candidate && Names(items, PrefixMatch(items, candidate))
  {
    if items != [] {
      PrefixMatchFinds(items[1..], candidate);
      assert items == [items[0]] + items[1..];
    }
  }

  /** The router never takes a later item than the classifier did. */
  lemma {:induction false} PrefixMatchIsTheHit(items: seq<Publication>, folder: string)
    requires FirstIgnoringCase(items, folder).Some? && FirstIgnoringCase(items, folder).value.fmsName <= folder
    ensures PrefixMatch(items, folder) == FirstIgnoringCase(items, folder).value.fmsName
  {
    if !PrefixIgnoringCase(items[0], folder) {
      if items[0].fmsName <= folder {
        LowerPrefix(items[0].fmsName, folder);
      }
      PrefixMatchIsTheHit(items[1..], folder);
    }
  }

  lemma {:induction false} HitIsInItsGroup(groups: seq<Group>, folder: string)
    requires DomainsDistinct(groups) && FirstHit(groups, folder).Some?
    ensures var hit := FirstHit(groups, folder).value;
            FindGroup(groups, hit.domain).Some? &&
            FirstIgnoringCase(FindGroup(groups, hit.domain).value, folder) == Some(hit.item)
    ensures exists g :: g in groups && g.domain == FirstHit(groups, folder).value.domain
  {
    if FirstIgnoringCase(groups[0].items, folder).None? {
      HitIsInItsGroup(groups[1..], folder);
      var g :| g in groups[1..] && g.domain == FirstHit(groups[1..], folder).value.domain;
      assert g in groups && g.domain != groups[0].domain;
    } else {
      assert groups[0] in groups;
    }
  }

  lemma {:induction false} FoundGroup(groups: seq<Group>, domain: string)
    requires FindGroup(groups, domain).Some?
    ensures exists g :: g in groups && g.items == FindGroup(groups, domain).value
  {
    if groups[0].domain != domain {
      FoundGroup(groups[1..], domain);
      var g :| g in groups[1..] && g.items == FindGroup(groups[1..], domain).value;
      assert g in groups;
    } else {
      assert groups[0] in groups;
    }
  }

  lemma {:induction false} StripRightOf(base: string, rest: string)
    requires base != "" && base[|base| - 1] != '/'
    ensures StripRight(base + rest, '/') == base + StripRight(rest, '/')
    decreases |rest|
  {
    if rest == "" {
      assert base + rest == base;
    } else {
      var s := base + rest;
      assert s[..|s| - 1] == base + rest[..|rest| - 1];
      if rest[|rest| - 1] == '/' {
        StripRightOf(base, rest[..|rest| - 1]);
      }
    }
  }

  lemma {:induction false} StripRightIsPrefix(s: string)
    ensures StripRight(s, '/') <= s
    decreases |s|
  {
    if s != "" && s[|s| - 1] == '/' {
      StripRightIsPrefix(s[..|s| - 1]);
    }
  }

  lemma {:induction false} SplitFour(a: string, b: string, c: string, d: string)
    requires IsSegment(a) && IsSegment(b) && IsSegment(c) && IsSegment(d)
    ensures Split(a + "/" + b + "/" + c + "/" + d, '/') == [a, b, c, d]
  {
    SplitConcat(a + "/" + b + "/" + c, '/', d);
    SplitConcat(a + "/" + b, '/', c);
    SplitConcat(a, '/', b);
    SplitWithoutSeparator(a, '/');
    SplitWithoutSeparator(b, '/');
    SplitWithoutSeparator(c, '/');
    SplitWithoutSeparator(d, '/');
  }

  /** Whatever the file is called, its key starts with the four segments of the landing path. */
  lemma {:induction false} KeySegments(a: string, b: string, c: string, d: string, name: string)
    requires IsSegment(a) && IsSegment(b) && IsSegment(c) && IsSegment(d)
    ensures var parts := Split(Strip(Sync.S3Key(a + "/" + b + "/" + c + "/" + d, name), '/'), '/');
            |parts| >= 4 && parts[..4] == [a, b, c, d]
  {
    var base := a + "/" + b + "/" + c + "/" + d;
    assert base[0] == a[0] && base[|base| - 1] == d[|d| - 1];
    StripNoop(base);
    SplitFour(a, b, c, d);
    var rest := "/" + name;
    assert Sync.S3Key(base, name) == base + rest;
    assert (base + rest)[0] == a[0];
    StripRightOf(base, rest);
    StripRightIsPrefix(rest);
    var kept := StripRight(rest, '/');
    if kept == "" {
      assert base + kept == base;
    } else {
      assert kept[0] == '/' && kept == "/" + kept[1..];
      assert base + kept == base + "/" + kept[1..];
      SplitConcat(base, '/', kept[1..]);
    }
  }

  lemma {:induction false} FolderSchemaPath(env: string, root: string, folder: string, domain: string)
    requires IsSegment(root) && IsSegment(folder)
    ensures SchemaRowOf(FolderRecord(env, domain, "/" + root + "/" + folder + "/")) ==
            Some(SchemaRow(Lower(env) + "/" + root + "/" + domain + "/" + folder, Lower(env), domain, folder))
  {
    var inner := root + "/" + folder;
    var path := "/" + root + "/" + folder + "/";
    assert inner[0] == root[0] && inner[|inner| - 1] == folder[|folder| - 1];
    assert path[1..] == inner + "/" && (inner + "/")[0] == root[0];
    assert StripLeft(path, '/') == StripLeft(path[1..], '/') == inner + "/";
    StripRightOf(inner, "/");
    assert ("/")[..0] == "" && StripRight("", '/') == "";
    assert StripRight("/", '/') == "";
    SplitConcat(root, '/', folder);
    SplitWithoutSeparator(root, '/');
    SplitWithoutSeparator(folder, '/');
  }

  /** The landing key of a file of a classified folder. */
  function LandingKey(c: Classifier, env: string, root: string, folder: string, name: string): Option<string> {
    var row := SchemaRowOf(FolderRecord(env, ClassifyFolder(c, folder), "/" + root + "/" + folder + "/"));
    if row.Some? then Some(Sync.S3Key(row.value.s3Path, name)) else None
  }

  lemma {:induction false} LandingKeyRoutes(c: Classifier, env: string, root: string, folder: string, name: string)
    requires IsSegment(env) && IsSegment(root) && IsSegment(folder) && IsSegment(ClassifyFolder(c, folder))
    ensures LandingKey(c, env, root, folder, name).Some?
    ensures Route(c, LandingKey(c, env, root, folder, name).value) == Judge(c, ClassifyFolder(c, folder), folder)
  {
    var domain := ClassifyFolder(c, folder);
    FolderSchemaPath(env, root, folder, domain);
    LowerKeepsSegment(env);
    SegmentsRoute(c, Lower(env), root, domain, folder, name);
  }

  lemma {:induction false} SegmentsRoute(c: Classifier, a: string, b: string, domain: string, folder: string,
                                         name: string)
    requires IsSegment(a) && IsSegment(b) && IsSegment(domain) && IsSegment(folder)
    ensures Route(c, Sync.S3Key(a + "/" + b + "/" + domain + "/" + folder, name)) == Judge(c, domain, folder)
  {
    KeySegments(a, b, domain, folder, name);
    var parts := Split(Strip(Sync.S3Key(a + "/" + b + "/" + domain + "/" + folder, name), '/'), '/');
    assert parts[2] == parts[..4][2] && parts[3] == parts[..4][3];
  }

  lemma {:induction false} LowerKeepsSegment(s: string)
    requires IsSegment(s)
    ensures IsSegment(Lower(s))
  {
  }

  /** A folder the classifier placed by a non-empty name that it starts with, case and all, comes back to that domain:
      under its own name if that is a contract there, under the very item that classified it otherwise. */
  lemma {:induction false} ClassifierAndRouterAgree(c: Classifier, env: string, root: string, folder: string,
                                                    name: string)
    requires DomainsDistinct(c.groups) && IsSegment(env) && IsSegment(root) && IsSegment(folder)
    requires FirstHit(c.groups, folder).Some?
    requires var hit := FirstHit(c.groups, folder).value;
             IsSegment(hit.domain) && hit.item.fmsName != "" && hit.item.fmsName <= folder
    ensures var hit := FirstHit(c.groups, folder).value;
            var contract := if Names(FindGroup(c.groups, hit.domain).GetOr([]), folder) then folder
                            else hit.item.fmsName;
            && ClassifyFolder(c, folder) == hit.domain
            && contract <= folder && Names(FindGroup(c.groups, hit.domain).GetOr([]), contract)
            && LandingKey(c, env, root, folder, name).Some?
            && Route(c, LandingKey(c, env, root, folder, name).value) ==
               if contract == GIANT_BYPASS then Bypassed else Routed(contract, hit.domain)
  {
    var hit := FirstHit(c.groups, folder).value;
    HitIsInItsGroup(c.groups, folder);
    var items := FindGroup(c.groups, hit.domain).value;
    ExactMatchExact(items, folder);
    PrefixMatchIsTheHit(items, folder);
    HitIsNamed(items, folder);
    LandingKeyRoutes(c, env, root, folder, name);
  }

  lemma {:induction false} HitIsNamed(items: seq<Publication>, folder: string)
    requires FirstIgnoringCase(items, folder).Some?
    ensures FirstIgnoringCase(items, folder).value in items
  {
    if !PrefixIgnoringCase(items[0], folder) {
      HitIsNamed(items[1..], folder);
    }
  }

  /** In general a classified folder comes back to a contract of its domain that it starts with exactly when the domain
      has a contract that it starts with, case and all; otherwise only the flat lookup of the domain's own name is
      left. */
  lemma {:induction false} RoutedWithinDomainExactly(c: Classifier, folder: string)
    requires DomainsDistinct(c.groups) && AllNamed(c) && folder != "" && FirstHit(c.groups, folder).Some?
    ensures var domain := ClassifyFolder(c, folder);
            var items := FindGroup(c.groups, domain).GetOr([]);
            var contract := ContractOf(c, domain, folder);
            if exists p :: p in items && p.fmsName <= folder
            then Names(items, contract) && contract <= folder && (contract == folder <==> Names(items, folder))
            else contract == FlatMatch(c.groups, domain)
  {
    var domain := ClassifyFolder(c, folder);
    HitIsInItsGroup(c.groups, folder);
    var items := FindGroup(c.groups, domain).value;
    FoundGroup(c.groups, domain);
    ExactMatchExact(items, folder);
    PrefixMatchFinds(items, folder);
  }

  /** Matching only up to case is not enough: the classifier places the folder, the router drops its files. */
  lemma {:induction false} CaseOnlyMatchIsDropped(env: string, root: string, name: string)
    requires IsSegment(env) && IsSegment(root)
    ensures var c := Classifier([Group("Load", [Publication("Total", "Total_r3")])], "Other");
            && ClassifyFolder(c, "total_r3.1") == "Load"
            && LandingKey(c, env, root, "total_r3.1", name).Some?
            && Route(c, LandingKey(c, env, root, "total_r3.1", name).value) == Unclassified
  {
    var item := Publication("Total", "Total_r3");
    var c := Classifier([Group("Load", [item])], "Other");
    assert Lower("Total_r3") == "total_r3" && Lower("total_r3.1") == "total_r3.1";
    assert PrefixIgnoringCase(item, "total_r3.1");
    assert FirstIgnoringCase([item], "total_r3.1") == Some(item);
    assert [item][1..] == [] && c.groups[1..] == [];
    assert !("Total_r3" <= "total_r3.1") by {
      assert "Total_r3"[0] != "total_r3.1"[0];
    }
    assert PrefixMatch([item], "total_r3.1") == PrefixMatch([item][1..], "total_r3.1") == "";
    assert FindKey([item], "Load") == FindKey([item][1..], "Load") == None;
    assert FlatMatch(c.groups, "Load") == FlatMatch(c.groups[1..], "Load") == "";
    LandingKeyRoutes(c, env, root, "total_r3.1", name);
  }
}
