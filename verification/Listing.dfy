/** Paginated and recursive listing of the remote file store. */
module Listing {
  import opened Prelude
  import opened Text

  /** The remote tree, in the order the server lists it; `id` stands for a file's other attributes. The records of a
      listing have the same form. */
  datatype Entry = File(name: string, id: string) | Folder(name: string, entries: seq<Entry>)

  datatype Error = ApiError

  const PAGE_SIZE: nat := 1000

  // ---- The server -----------------------------------------------------------------------------

  function Names(entries: seq<Entry>): set<string> {
    set e | e in entries :: e.name
  }

  /** Names are usable path segments, and no directory holds two entries of one name. */
  predicate TreeOk(entries: seq<Entry>) {
    entries == [] ||
    (&& IsSegment(entries[0].name) && entries[0].name !in Names(entries[1..])
     && (entries[0].Folder? ==> TreeOk(entries[0].entries))
     && TreeOk(entries[1..]))
  }

  function FindFolder(entries: seq<Entry>, name: string): Option<seq<Entry>> {
    if entries == [] then None
    else if entries[0].Folder? && entries[0].name == name then Some(entries[0].entries)
    else FindFolder(entries[1..], name)
  }

  /** The directory at a path of names. */
  function Lookup(entries: seq<Entry>, path: seq<string>): Option<seq<Entry>>
    decreases |path|
  {
    if path == [] then Some(entries)
    else
      var next := FindFolder(entries, path[0]);
      if next.None? then None else Lookup(next.value, path[1..])
  }

  function Take<T>(s: seq<T>, n: nat): seq<T> { if |s| < n then s else s[..n] }

  function Drop<T>(s: seq<T>, n: nat): seq<T> { if |s| < n then [] else s[n..] }

  /** What lies behind the first pages. */
  function Rest<T>(s: seq<T>, pages: nat, size: nat): seq<T> {
    if pages == 0 then s else Drop(Rest(s, pages - 1, size), size)
  }

  function Page<T>(s: seq<T>, index: nat, size: nat): seq<T> {
    Take(Rest(s, index, size), size)
  }

  // ---- Sizes and request counts ---------------------------------------------------------------

  function Size(entries: seq<Entry>): nat {
    if entries == [] then 0
    else 1 + (if entries[0].Folder? then Size(entries[0].entries) else 0) + Size(entries[1..])
  }

  /** Page fetches for a directory of `n` entries: the loop stops at the first page that is not full. */
  function Pages(n: nat, size: nat): nat
    requires size > 0
  {
    if n < size then 1 else 1 + Pages(n - size, size)
  }

  /** Page fetches for the directories below. */
  function RequestsBelow(entries: seq<Entry>): nat
    decreases entries, 0
  {
    if entries == [] then 0
    else (if entries[0].Folder? then Requests(entries[0].entries) else 0) + RequestsBelow(entries[1..])
  }

  /** Page fetches for a whole tree. */
  function Requests(entries: seq<Entry>): nat
    decreases entries, 1
  {
    |entries| / 1000 + 1 + RequestsBelow(entries)
  }

  lemma {:induction false} MultipleOf(k: int, size: nat)
    ensures k >= 1 ==> k * size >= size
    ensures k <= -1 ==> k * size <= -(size as int)
  {
    if k >= 1 {
      assert (k - 1) * size >= 0;
    } else if k <= -1 {
      assert (-1 - k) * size >= 0;
    }
  }

  lemma {:induction false} QuotientIs(n: nat, size: nat, q: nat, r: nat)
    requires r < size && n == q * size + r
    ensures n / size == q
  {
    var p := n / size;
    assert n == p * size + n % size;
    assert (p - q) * size == p * size - q * size;
    MultipleOf(p - q, size);
  }

  lemma {:induction false} Quotient(n: nat, size: nat)
    requires size > 0 && n >= size
    ensures n / size == (n - size) / size + 1
  {
    var q, r := (n - size) / size, (n - size) % size;
    assert n - size == q * size + r;
    assert (q + 1) * size == q * size + size;
    QuotientIs(n, size, q + 1, r);
  }

  lemma {:induction false} PagesQuotient(n: nat, size: nat)
    requires size > 0
    ensures Pages(n, size) == n / size + 1
  {
    if n >= size {
      PagesQuotient(n - size, size);
      Quotient(n, size);
    }
  }

  lemma {:induction false} BelowConcat(a: seq<Entry>, b: seq<Entry>)
    ensures RequestsBelow(a + b) == RequestsBelow(a) + RequestsBelow(b)
    decreases |a|
  {
    if a == [] {
      assert a + b == b;
    } else {
      assert (a + b)[0] == a[0] && (a + b)[1..] == a[1..] + b;
      BelowConcat(a[1..], b);
    }
  }

  // ---- Sorting by name ------------------------------------------------------------------------

  predicate Sorted(items: seq<Entry>) {
    forall i, j :: 0 <= i < j < |items| ==> StrLe(items[i].name, items[j].name)
  }

  function InsertByName(x: Entry, sorted: seq<Entry>): seq<Entry> {
    if sorted == [] || StrLe(x.name, sorted[0].name) then [x] + sorted
    else [sorted[0]] + InsertByName(x, sorted[1..])
  }

  function SortByName(items: seq<Entry>): seq<Entry> {
    if items == [] then [] else InsertByName(items[0], SortByName(items[1..]))
  }

  lemma {:induction false} InsertByNameInserts(x: Entry, sorted: seq<Entry>)
    ensures multiset(InsertByName(x, sorted)) == multiset(sorted) + multiset{x}
  {
    if !(sorted == [] || StrLe(x.name, sorted[0].name)) {
      InsertByNameInserts(x, sorted[1..]);
      assert sorted == [sorted[0]] + sorted[1..];
    }
  }

  lemma {:induction false} SortedCons(x: Entry, rest: seq<Entry>)
    requires Sorted(rest) && (rest == [] || StrLe(x.name, rest[0].name))
    ensures Sorted([x] + rest)
  {
    forall j | 0 <= j < |rest| ensures StrLe(x.name, rest[j].name) {
      if j > 0 {
        StrLeTransitive(x.name, rest[0].name, rest[j].name);
      }
    }
  }

  lemma {:induction false} InsertByNameSorts(x: Entry, sorted: seq<Entry>)
    requires Sorted(sorted)
    ensures Sorted(InsertByName(x, sorted))
  {
    if sorted == [] || StrLe(x.name, sorted[0].name) {
      SortedCons(x, sorted);
    } else {
      InsertByNameSorts(x, sorted[1..]);
      StrLeTotal(x.name, sorted[0].name);
      SortedCons(sorted[0], InsertByName(x, sorted[1..]));
    }
  }

  lemma {:induction false} SortByNameSorts(items: seq<Entry>)
    ensures Sorted(SortByName(items)) && multiset(SortByName(items)) == multiset(items)
  {
    if items != [] {
      SortByNameSorts(items[1..]);
      InsertByNameSorts(items[0], SortByName(items[1..]));
      InsertByNameInserts(items[0], SortByName(items[1..]));
      assert items == [items[0]] + items[1..];
    }
  }

  // ---- What a recursive listing must contain --------------------------------------------------

  /** Every file below, in the order of the walk, named by its path. */
  function FilesUnder(entries: seq<Entry>, prefix: seq<string>): seq<Entry> {
    if entries == [] then []
    else
      (match entries[0]
       case File(name, id) => [File(Join(prefix + [name], "/"), id)]
       case Folder(name, below) => FilesUnder(below, prefix + [name]))
      + FilesUnder(entries[1..], prefix)
  }

  /** The file at a path of names, as a file system resolves it. */
  function LeafAt(entries: seq<Entry>, path: seq<string>): Option<string>
    decreases entries
  {
    if path == [] || entries == [] then None
    else if entries[0].name != path[0] then LeafAt(entries[1..], path)
    else match entries[0]
      case File(_, id) => if |path| == 1 then Some(id) else None
      case Folder(_, below) => LeafAt(below, path[1..])
  }

  /** The item describes a file of the tree, named by its path. */
  ghost predicate IsLeaf(entries: seq<Entry>, x: Entry) {
    x.File? && exists path :: LeafAt(entries, path) == Some(x.id) && x.name == Join(path, "/")
  }

  predicate Segments(path: seq<string>) {
    forall p :: p in path ==> IsSegment(p)
  }

  /** A name stands for one path only. */
  lemma {:induction false} JoinInjective(p: seq<string>, q: seq<string>)
    requires Segments(p) && Segments(q)
    ensures Join(p, "/") == Join(q, "/") <==> p == q
  {
    JoinComponents(p);
    JoinComponents(q);
  }

  lemma {:induction false} LeafIsNamed(entries: seq<Entry>, path: seq<string>)
    requires LeafAt(entries, path).Some? && TreeOk(entries)
    ensures path != [] && path[0] in Names(entries) && Segments(path)
    decreases entries
  {
    if entries[0].name != path[0] {
      LeafIsNamed(entries[1..], path);
    } else {
      match entries[0] {
        case File(_, id) => assert path == [path[0]];
        case Folder(_, below) =>
          LeafIsNamed(below, path[1..]);
          assert path == [path[0]] + path[1..];
      }
    }
  }

  lemma {:induction false} ListedIsLeaf(entries: seq<Entry>, prefix: seq<string>, x: Entry) returns (path: seq<string>)
    requires TreeOk(entries) && x in FilesUnder(entries, prefix)
    ensures x.File? && LeafAt(entries, path) == Some(x.id) && x.name == Join(prefix + path, "/")
    ensures path != [] && path[0] in Names(entries)
    decreases entries
  {
    var e, rest := entries[0], entries[1..];
    if x in FilesUnder(rest, prefix) {
      path := ListedIsLeaf(rest, prefix, x);
    } else {
      match e {
        case File(name, id) => path := [name];
        case Folder(name, below) =>
          var deeper := ListedIsLeaf(below, prefix + [name], x);
          path := [name] + deeper;
          DeeperPath(prefix, name, deeper);
      }
    }
  }

  lemma {:induction false} DeeperPath(prefix: seq<string>, name: string, deeper: seq<string>)
    ensures ([name] + deeper)[1..] == deeper && prefix + ([name] + deeper) == (prefix + [name]) + deeper
  {
  }

  lemma {:induction false} LeafIsListed(entries: seq<Entry>, prefix: seq<string>, path: seq<string>)
    requires LeafAt(entries, path).Some?
    ensures File(Join(prefix + path, "/"), LeafAt(entries, path).value) in FilesUnder(entries, prefix)
    decreases entries
  {
    if entries[0].name != path[0] {
      LeafIsListed(entries[1..], prefix, path);
    } else {
      match entries[0] {
        case File(name, id) => assert path == [name];
        case Folder(name, below) =>
          LeafIsListed(below, prefix + [name], path[1..]);
          assert prefix + path == (prefix + [name]) + path[1..];
      }
    }
  }

  predicate DistinctNames(items: seq<Entry>) {
    forall i, j :: 0 <= i < j < |items| ==> items[i].name != items[j].name
  }

  lemma {:induction false} DistinctConcat(a: seq<Entry>, b: seq<Entry>)
    requires DistinctNames(a) && DistinctNames(b) && forall x, y :: x in a && y in b ==> x.name != y.name
    ensures DistinctNames(a + b)
  {
  }

  /** Distinct leaves are listed under distinct names. */
  lemma {:induction false} NamesAreDistinct(entries: seq<Entry>, prefix: seq<string>)
    requires TreeOk(entries) && Segments(prefix)
    ensures DistinctNames(FilesUnder(entries, prefix))
    decreases entries
  {
    if entries != [] {
      var e, rest := entries[0], entries[1..];
      var here := if e.File? then [File(Join(prefix + [e.name], "/"), e.id)]
                  else FilesUnder(e.entries, prefix + [e.name]);
      NamesAreDistinct(rest, prefix);
      if e.Folder? {
        NamesAreDistinct(e.entries, prefix + [e.name]);
      }
      forall x, y | x in here && y in FilesUnder(rest, prefix) ensures x.name != y.name {
        var p := ListedHere(e, prefix, x);
        var q := ListedIsLeaf(rest, prefix, y);
        LeafIsNamed(rest, q);
        JoinInjective(prefix + p, prefix + q);
        assert (prefix + p)[|prefix|] == e.name && (prefix + q)[|prefix|] == q[0];
      }
      DistinctConcat(here, FilesUnder(rest, prefix));
    }
  }

  lemma {:induction false} ListedHere(e: Entry, prefix: seq<string>, x: Entry) returns (path: seq<string>)
    requires IsSegment(e.name) && (e.Folder? ==> TreeOk(e.entries))
    requires if e.File? then x == File(Join(prefix + [e.name], "/"), e.id)
             else x in FilesUnder(e.entries, prefix + [e.name])
    ensures path != [] && path[0] == e.name && Segments(path) && x.name == Join(prefix + path, "/")
  {
    path := [e.name];
    if e.Folder? {
      var deeper := ListedIsLeaf(e.entries, prefix + [e.name], x);
      LeafIsNamed(e.entries, deeper);
      path := [e.name] + deeper;
      assert prefix + path == (prefix + [e.name]) + deeper;
    }
  }

  /** A sorted list with the contents of the walk is exact: one item for each leaf and only those, each under the leaf's
      path, no name twice, and there is only one such list. */
  lemma {:induction false} ListingIsExact(entries: seq<Entry>, r: seq<Entry>)
    requires TreeOk(entries) && Sorted(r) && multiset(r) == multiset(FilesUnder(entries, []))
    ensures forall x :: x in r <==> IsLeaf(entries, x)
    ensures DistinctNames(r)
    ensures forall s :: Sorted(s) && multiset(s) == multiset(r) ==> s == r
  {
    var walk := FilesUnder(entries, []);
    NamesAreDistinct(entries, []);
    SameMembers(r, walk);
    forall x ensures x in r <==> IsLeaf(entries, x) {
      if x in r {
        var path := ListedIsLeaf(entries, [], x);
        assert [] + path == path;
      }
      if IsLeaf(entries, x) {
        var path :| LeafAt(entries, path) == Some(x.id) && x.name == Join(path, "/");
        LeafIsListed(entries, [], path);
        assert [] + path == path;
      }
    }
    PermutationStaysDistinct(walk, r);
    forall s | Sorted(s) && multiset(s) == multiset(r) ensures s == r {
      PermutationStaysDistinct(walk, s);
      SortedIsUnique(r, s);
    }
  }

  lemma {:induction false} SameMembers<T>(a: seq<T>, b: seq<T>)
    requires multiset(a) == multiset(b)
    ensures forall x :: x in a <==> x in b
  {
    forall x ensures x in a <==> x in b {
      assert x in multiset(a) <==> x in multiset(b);
    }
  }

  /** Each name at most once, said with counts, which permutations keep. */
  lemma {:induction false} OnceEach(items: seq<Entry>, x: Entry, y: Entry)
    requires DistinctNames(items) && x.name == y.name
    ensures multiset(items)[x] + (if x == y then 0 else multiset(items)[y]) <= 1
  {
    if items != [] {
      assert items == [items[0]] + items[1..];
      OnceEach(items[1..], x, y);
      if items[0] == x || items[0] == y {
        assert x !in items[1..] && y !in items[1..];
      }
    }
  }

  lemma {:induction false} CountedTwice<T>(r: seq<T>, i: nat, j: nat)
    requires i < j < |r|
    ensures multiset(r)[r[i]] + (if r[i] == r[j] then 0 else multiset(r)[r[j]]) >= 2
  {
    assert r == r[..j] + r[j..];
    assert multiset(r) == multiset(r[..j]) + multiset(r[j..]);
    assert r[i] in r[..j] && r[j] in r[j..];
  }

  lemma {:induction false} PermutationStaysDistinct(walk: seq<Entry>, r: seq<Entry>)
    requires DistinctNames(walk) && multiset(r) == multiset(walk)
    ensures DistinctNames(r)
  {
    forall i, j | 0 <= i < j < |r| ensures r[i].name != r[j].name {
      if r[i].name == r[j].name {
        CountedTwice(r, i, j);
        OnceEach(walk, r[i], r[j]);
      }
    }
  }

  lemma {:induction false} FirstIsLeast(s: seq<Entry>, x: Entry)
    requires Sorted(s) && x in s
    ensures StrLe(s[0].name, x.name)
  {
    StrLeTotal(x.name, x.name);
  }

  lemma {:induction false} SameHead(a: seq<Entry>, b: seq<Entry>)
    requires Sorted(a) && Sorted(b) && DistinctNames(a) && multiset(a) == multiset(b) && a != []
    ensures b != [] && a[0] == b[0]
  {
    SameMembers(a, b);
    assert a[0] in b;
    FirstIsLeast(a, b[0]);
    FirstIsLeast(b, a[0]);
    StrLeTotal(a[0].name, b[0].name);
  }

  lemma {:induction false} TailCounts<T>(s: seq<T>)
    requires s != []
    ensures multiset(s[1..]) == multiset(s) - multiset{s[0]}
  {
    assert s == [s[0]] + s[1..];
  }

  lemma {:induction false} SortedIsUnique(a: seq<Entry>, b: seq<Entry>)
    requires Sorted(a) && Sorted(b) && DistinctNames(a) && multiset(a) == multiset(b)
    ensures a == b
  {
    if a == [] {
      assert |b| == |multiset(b)| == 0;
    } else {
      SameHead(a, b);
      TailCounts(a);
      TailCounts(b);
      SortedIsUnique(a[1..], b[1..]);
      assert a == [a[0]] + a[1..] && b == [b[0]] + b[1..];
    }
  }

  // ---- The client -----------------------------------------------------------------------------

  lemma {:induction false} LookupSnoc(root: seq<Entry>, path: seq<string>, name: string)
    ensures Lookup(root, path + [name]) ==
            if Lookup(root, path).Some? then FindFolder(Lookup(root, path).value, name) else None
    decreases |path|
  {
    if path == [] {
      assert [name][1..] == [];
    } else {
      assert (path + [name])[1..] == path[1..] + [name];
      var next := FindFolder(root, path[0]);
      if next.Some? {
        LookupSnoc(next.value, path[1..], name);
      }
    }
  }

  lemma {:induction false} FindIsOk(entries: seq<Entry>, name: string)
    requires TreeOk(entries) && FindFolder(entries, name).Some?
    ensures TreeOk(FindFolder(entries, name).value)
  {
    if !(entries[0].Folder? && entries[0].name == name) {
      FindIsOk(entries[1..], name);
    }
  }

  lemma {:induction false} LookupIsOk(root: seq<Entry>, path: seq<string>)
    requires TreeOk(root) && Lookup(root, path).Some?
    ensures TreeOk(Lookup(root, path).value)
    decreases |path|
  {
    if path != [] {
      FindIsOk(root, path[0]);
      LookupIsOk(FindFolder(root, path[0]).value, path[1..]);
    }
  }

  lemma {:induction false} EntryIsOk(entries: seq<Entry>, k: nat)
    requires TreeOk(entries) && k < |entries|
    ensures IsSegment(entries[k].name)
    ensures entries[k].Folder? ==>
            FindFolder(entries, entries[k].name) == Some(entries[k].entries) && Size(entries[k].entries) < Size(entries)
  {
    if k > 0 {
      EntryIsOk(entries[1..], k - 1);
      assert entries[1..][k - 1] == entries[k];
    }
  }

  lemma {:induction false} FilesUnderConcat(a: seq<Entry>, b: seq<Entry>, prefix: seq<string>)
    ensures FilesUnder(a + b, prefix) == FilesUnder(a, prefix) + FilesUnder(b, prefix)
    decreases |a|
  {
    if a == [] {
      assert a + b == b;
    } else {
      assert (a + b)[0] == a[0] && (a + b)[1..] == a[1..] + b;
      FilesUnderConcat(a[1..], b, prefix);
    }
  }

  lemma {:induction false} JoinSnoc(prefix: seq<string>, name: string)
    ensures Join(prefix + [name], "/") == if prefix == [] then name else Join(prefix, "/") + "/" + name
  {
    if |prefix| == 1 {
      assert (prefix + [name])[1..] == [name];
    } else if |prefix| > 1 {
      assert (prefix + [name])[1..] == prefix[1..] + [name];
      JoinSnoc(prefix[1..], name);
      assert prefix[0] + "/" + (Join(prefix[1..], "/") + "/" + name) ==
             (prefix[0] + "/" + Join(prefix[1..], "/")) + "/" + name;
    }
  }

  lemma {:induction false} JoinEnds(parts: seq<string>)
    requires parts != [] && Segments(parts)
    ensures var s := Join(parts, "/"); s != "" && s[0] != '/' && s[|s| - 1] != '/'
  {
    assert IsSegment(parts[0]);
    if |parts| > 1 {
      JoinEnds(parts[1..]);
    }
  }

  /** The path the walk asks for, and the accumulated path below it. */
  function WalkPath(rootDir: string, folderName: string, subpath: string): string {
    CollapseSlashes(if subpath != "" then "/" + rootDir + "/" + folderName + "/" + subpath + "/"
                    else "/" + rootDir + "/" + folderName + "/")
  }

  function Below(subpath: string, name: string): string {
    if subpath != "" then subpath + "/" + name else name
  }

  function Directory(rootDir: string, folderName: string, prefix: seq<string>): seq<string> {
    Components(rootDir) + Components(folderName) + prefix
  }

  /** The directory named by that path: empty parts and doubled slashes mean nothing. */
  lemma {:induction false} RequestPath(rootDir: string, folderName: string, prefix: seq<string>)
    requires Segments(prefix)
    ensures Components(WalkPath(rootDir, folderName, Join(prefix, "/"))) == Directory(rootDir, folderName, prefix)
  {
    var subpath := Join(prefix, "/");
    JoinComponents(prefix);
    var outer := "/" + rootDir + "/" + folderName;
    FolderPath(rootDir, folderName);
    if subpath != "" {
      var path := "/" + rootDir + "/" + folderName + "/" + subpath + "/";
      CollapseKeepsComponents(path);
      assert path == (outer + "/" + subpath) + "/" + "";
      ComponentsConcat(outer + "/" + subpath, "");
      ComponentsConcat(outer, subpath);
    } else {
      CollapseKeepsComponents(outer + "/");
      assert outer + "/" == outer + "/" + "";
      ComponentsConcat(outer, "");
    }
  }

  lemma {:induction false} FolderPath(rootDir: string, folderName: string)
    ensures Components("/" + rootDir + "/" + folderName) == Components(rootDir) + Components(folderName)
  {
    ComponentsConcat("", rootDir + "/" + folderName);
    assert "" + "/" + (rootDir + "/" + folderName) == "/" + rootDir + "/" + folderName;
    ComponentsConcat(rootDir, folderName);
  }

  class Counter {
    var value: nat
    constructor () ensures value == 0 { value := 0; }
  }

  /** The remote store and the session that talks to it; requests are numbered, and those in `failing` raise. */
  class Client {
    const root: seq<Entry>
    const failing: set<nat>
    var sent: nat

    constructor (root: seq<Entry>, failing: set<nat>)
      ensures this.root == root && this.failing == failing && sent == 0
    {
      this.root, this.failing, sent := root, failing, 0;
    }

    /** `_fetch_folder_page`. */
    method FetchFolderPage(path: string, pageIndex: nat, pageSize: nat) returns (r: Result<seq<Entry>, Error>)
      modifies this
      ensures sent == old(sent) + 1
      ensures r == if old(sent) in failing || Lookup(root, Components(path)).None? then Err(ApiError)
                   else Ok(Page(Lookup(root, Components(path)).value, pageIndex, pageSize))
    {
      sent := sent + 1;
      var entries := Lookup(root, Components(path));
      if sent - 1 in failing || entries.None? {
        return Err(ApiError);
      }
      return Ok(Page(entries.value, pageIndex, pageSize));
    }
  }

  /** Of the requests numbered from `first`, the first `n` all succeed. */
  predicate AllPass(failing: set<nat>, first: nat, n: nat) {
    forall k :: first <= k < first + n ==> k !in failing
  }

  /** A loop over `n` requests either makes them all, or stops at the first that raises. */
  predicate StoppedRight(failing: set<nat>, first: nat, n: nat, sent: nat, ok: bool) {
    && (ok <==> AllPass(failing, first, n))
    && (if ok then sent == first + n
        else first < sent <= first + n && sent - 1 in failing && AllPass(failing, first, sent - 1 - first))
  }

  /** A page loop in flight: what it has, and how many fetches it has left. */
  ghost predicate Paging(entries: seq<Entry>, done: seq<Entry>, pages: nat, size: nat, first: nat, sent: nat,
                         failing: set<nat>)
    requires size > 0
  {
    && entries == done + Rest(entries, pages, size)
    && sent + Pages(|Rest(entries, pages, size)|, size) == first + Pages(|entries|, size)
    && sent >= first && AllPass(failing, first, sent - first)
  }

  /** One more fetch: it raises, or it is the last one, or the loop goes on. */
  lemma {:induction false} PagingStep(entries: seq<Entry>, done: seq<Entry>, pages: nat, size: nat, first: nat,
                                      sent: nat, failing: set<nat>)
    requires size > 0 && Paging(entries, done, pages, size, first, sent, failing)
    ensures var page := Page(entries, pages, size);
            if sent in failing then StoppedRight(failing, first, |entries| / size + 1, sent + 1, false)
            else if |page| < size
                then done + page == entries && StoppedRight(failing, first, |entries| / size + 1, sent + 1, true)
            else Paging(entries, done + page, pages + 1, size, first, sent + 1, failing) &&
                 |Rest(entries, pages + 1, size)| < |Rest(entries, pages, size)|
  {
    PagesQuotient(|entries|, size);
    var rest := Rest(entries, pages, size);
    if |rest| < size {
      assert Take(rest, size) == rest;
    } else {
      assert rest == Take(rest, size) + Drop(rest, size);
    }
  }

  function NamesOf(entries: seq<Entry>): (names: seq<string>)
    ensures |names| == |entries|
  {
    seq(|entries|, i requires 0 <= i < |entries| => entries[i].name)
  }

  lemma {:induction false} NamesConcat(a: seq<Entry>, b: seq<Entry>)
    ensures NamesOf(a + b) == NamesOf(a) + NamesOf(b)
  {
  }

  /** `ls_fms`: page by page until a page is not full. */
  method LsFms(client: Client, path: string, pageSize: nat) returns (r: Result<seq<string>, Error>)
    requires pageSize > 0
    modifies client
    ensures match Lookup(client.root, Components(path))
            case None => r.Err? && client.sent == old(client.sent) + 1
            case Some(entries) =>
              && StoppedRight(client.failing, old(client.sent), |entries| / pageSize + 1, client.sent, r.Ok?)
              && (r.Ok? ==> r.value == NamesOf(entries))
  {
    var names: seq<string>, pageIndex := [], 0;
    ghost var entries := Lookup(client.root, Components(path)).GetOr([]);
    ghost var done: seq<Entry> := [];
    while true
      invariant Lookup(client.root, Components(path)).Some? || (pageIndex == 0 && client.sent == old(client.sent))
      invariant Paging(entries, done, pageIndex, pageSize, old(client.sent), client.sent, client.failing)
      invariant names == NamesOf(done)
      decreases |Rest(entries, pageIndex, pageSize)|
    {
      PagingStep(entries, done, pageIndex, pageSize, old(client.sent), client.sent, client.failing);
      var page := client.FetchFolderPage(path, pageIndex, pageSize);
      if page.Err? {
        return Err(page.error);
      }
      NamesConcat(done, page.value);
      names := names + NamesOf(page.value);
      done := done + page.value;
      if |page.value| < pageSize {
        return Ok(names);
      }
      pageIndex := pageIndex + 1;
    }
  }

  /** The path `list_folder_raw_items` asks for: the root, a root-level file, or a directory. */
  function RawPath(rootDir: string, folderName: string): string {
    if folderName == "" then "/" + rootDir + "/"
    else if EndsWith(folderName, ".csv") then "/" + rootDir + "/" + folderName
    else "/" + rootDir + "/" + folderName + "/"
  }

  lemma {:induction false} RawPathNames(rootDir: string, folderName: string)
    ensures Components(RawPath(rootDir, folderName)) == Components(rootDir) + Components(folderName)
  {
    FolderPath(rootDir, folderName);
    if folderName == "" {
      assert "/" + rootDir + "/" + "" == "/" + rootDir + "/";
    } else if !EndsWith(folderName, ".csv") {
      ComponentsConcat("/" + rootDir + "/" + folderName, "");
      assert RawPath(rootDir, folderName) == ("/" + rootDir + "/" + folderName) + "/" + "";
    }
  }

  /** The page loop of `list_folder_raw_items`; every fetch is counted before it is made. */
  method FetchAllPages(client: Client, path: string, counter: Counter?) returns (r: Result<seq<Entry>, Error>)
    modifies client, counter
    ensures counter != null ==> counter.value == old(counter.value) + client.sent - old(client.sent)
    ensures match Lookup(client.root, Components(path))
            case None => r.Err? && client.sent == old(client.sent) + 1
            case Some(entries) =>
              && StoppedRight(client.failing, old(client.sent), |entries| / PAGE_SIZE + 1, client.sent, r.Ok?)
              && (r.Ok? ==> r.value == entries)
  {
    var items: seq<Entry>, pageIndex := [], 0;
    ghost var entries := Lookup(client.root, Components(path)).GetOr([]);
    while true
      invariant Lookup(client.root, Components(path)).Some? || (pageIndex == 0 && client.sent == old(client.sent))
      invariant Paging(entries, items, pageIndex, PAGE_SIZE, old(client.sent), client.sent, client.failing)
      invariant counter != null ==> counter.value == old(counter.value) + client.sent - old(client.sent)
      decreases |Rest(entries, pageIndex, PAGE_SIZE)|
    {
      PagingStep(entries, items, pageIndex, PAGE_SIZE, old(client.sent), client.sent, client.failing);
      if counter != null {
        counter.value := counter.value + 1;
      }
      var page := client.FetchFolderPage(path, pageIndex, PAGE_SIZE);
      if page.Err? {
        return Err(page.error);
      }
      items := items + page.value;
      if |page.value| < PAGE_SIZE {
        return Ok(items);
      }
      pageIndex := pageIndex + 1;
    }
  }

  /** `list_folder_raw_items`: one directory, its records sorted by name. */
  method ListFolderRawItems(client: Client, folderName: string, counter: Counter?, rootDir: string)
    returns (r: Result<seq<Entry>, Error>)
    modifies client, counter
    ensures counter != null ==> counter.value == old(counter.value) + client.sent - old(client.sent)
    ensures match Lookup(client.root, Components(rootDir) + Components(folderName))
            case None => r.Err? && client.sent == old(client.sent) + 1
            case Some(entries) =>
              && StoppedRight(client.failing, old(client.sent), |entries| / 1000 + 1, client.sent, r.Ok?)
              && (r.Ok? ==> Sorted(r.value) && multiset(r.value) == multiset(entries))
  {
    RawPathNames(rootDir, folderName);
    r := FetchAllPages(client, RawPath(rootDir, folderName), counter);
    if r.Ok? {
      SortByNameSorts(r.value);
      r := Ok(SortByName(r.value));
    }
  }

  lemma {:induction false} SubfolderPath(prefix: seq<string>, name: string)
    requires Segments(prefix) && IsSegment(name)
    ensures Below(Join(prefix, "/"), name) == Strip(Below(Join(prefix, "/"), name), '/') == Join(prefix + [name], "/")
  {
    JoinSnoc(prefix, name);
    if prefix != [] {
      JoinEnds(prefix);
    }
    JoinEnds(prefix + [name]);
    StripNoop(Join(prefix + [name], "/"));
  }

  lemma {:induction false} AllPassConcat(failing: set<nat>, first: nat, n: nat, m: nat)
    ensures AllPass(failing, first, n + m) <==> AllPass(failing, first, n) && AllPass(failing, first + n, m)
  {
  }

  /** The items of one page, files named by their path and folders walked at once, before the next page is fetched. */
  ghost predicate Walked(entries: seq<Entry>, prefix: seq<string>, files: seq<Entry>) {
    multiset(files) == multiset(FilesUnder(entries, prefix))
  }

  lemma {:induction false} WalkOne(done: seq<Entry>, e: Entry, prefix: seq<string>, files: seq<Entry>, more: seq<Entry>)
    requires Walked(done, prefix, files)
    requires if e.File? then more == [File(Join(prefix + [e.name], "/"), e.id)]
             else Walked(e.entries, prefix + [e.name], more)
    ensures Walked(done + [e], prefix, files + more)
    ensures RequestsBelow(done + [e]) == RequestsBelow(done) + if e.Folder? then Requests(e.entries) else 0
  {
    FilesUnderConcat(done, [e], prefix);
    BelowConcat(done, [e]);
    assert [e][1..] == [];
    var here := if e.File? then more else FilesUnder(e.entries, prefix + [e.name]);
    assert FilesUnder([e], prefix) == here + FilesUnder([e][1..], prefix) == here;
    assert RequestsBelow([e]) == (if e.Folder? then Requests(e.entries) else 0) + RequestsBelow([e][1..]);
  }

  /** A walk in flight: `done` of the entries dealt with, `fetched` pages of this directory, everything so far
      counted. */
  ghost predicate Walking(failing: set<nat>, entries: seq<Entry>, prefix: seq<string>, done: seq<Entry>, fetched: nat,
                          files: seq<Entry>, first: nat, sent: nat)
  {
    && done <= entries && Walked(done, prefix, files)
    && sent == first + fetched + RequestsBelow(done)
    && AllPass(failing, first, sent - first)
  }

  lemma {:induction false} BelowPrefix(done: seq<Entry>, entries: seq<Entry>)
    requires done <= entries
    ensures RequestsBelow(done) <= RequestsBelow(entries)
  {
    assert entries == done + entries[|done|..];
    BelowConcat(done, entries[|done|..]);
  }

  /** A fetch of the directory itself. */
  lemma {:induction false} WalkFetch(failing: set<nat>, entries: seq<Entry>, prefix: seq<string>, done: seq<Entry>,
                                     fetched: nat, files: seq<Entry>, first: nat, sent: nat)
    requires Walking(failing, entries, prefix, done, fetched, files, first, sent) && fetched < |entries| / PAGE_SIZE + 1
    ensures if sent in failing then StoppedRight(failing, first, Requests(entries), sent + 1, false)
            else Walking(failing, entries, prefix, done, fetched + 1, files, first, sent + 1)
  {
    BelowPrefix(done, entries);
  }

  /** The next entry is a file, or a folder whose walk has just returned. */
  lemma {:induction false} WalkEntry(failing: set<nat>, entries: seq<Entry>, prefix: seq<string>, done: seq<Entry>,
                                     fetched: nat, files: seq<Entry>, first: nat, sent: nat, more: seq<Entry>,
                                     sent': nat, ok: bool)
    requires Walking(failing, entries, prefix, done, fetched, files, first, sent)
    requires fetched <= |entries| / PAGE_SIZE + 1 && |done| < |entries|
    requires var e := entries[|done|];
             if e.File? then ok && sent' == sent && more == [File(Join(prefix + [e.name], "/"), e.id)]
             else
               StoppedRight(failing, sent, Requests(e.entries), sent', ok) &&
               (ok ==> Walked(e.entries, prefix + [e.name], more))
    ensures if ok then Walking(failing, entries, prefix, done + [entries[|done|]], fetched, files + more, first, sent')
            else StoppedRight(failing, first, Requests(entries), sent', false)
  {
    var e := entries[|done|];
    BelowPrefix(done + [e], entries);
    BelowConcat(done, [e]);
    assert [e][1..] == [];
    assert RequestsBelow([e]) == if e.Folder? then Requests(e.entries) else 0;
    if ok {
      WalkOne(done, e, prefix, files, more);
      AllPassConcat(failing, first, sent - first, sent' - sent);
    } else {
      AllPassConcat(failing, first, sent - first, sent' - 1 - sent);
      assert first <= sent' - 1 < first + Requests(entries);
    }
  }

  /** `pages` full pages of the directory are `done`, and so many more will be fetched. */
  ghost predicate AtPage(entries: seq<Entry>, done: seq<Entry>, pages: nat) {
    && entries == done + Rest(entries, pages, PAGE_SIZE)
    && pages + Pages(|Rest(entries, pages, PAGE_SIZE)|, PAGE_SIZE) == Pages(|entries|, PAGE_SIZE)
  }

  function Left(entries: seq<Entry>, pages: nat): nat {
    |Rest(entries, pages, PAGE_SIZE)|
  }

  lemma {:induction false} PageOfRest(entries: seq<Entry>, done: seq<Entry>, pages: nat)
    requires AtPage(entries, done, pages)
    ensures var page := Page(entries, pages, PAGE_SIZE);
            && pages < |entries| / PAGE_SIZE + 1 && done + page <= entries
            && (if |page| < PAGE_SIZE then done + page == entries && pages + 1 == |entries| / PAGE_SIZE + 1
                else AtPage(entries, done + page, pages + 1) && Left(entries, pages + 1) < Left(entries, pages))
  {
    PagesQuotient(|entries|, PAGE_SIZE);
    var rest := Rest(entries, pages, PAGE_SIZE);
    if |rest| < PAGE_SIZE {
      assert Take(rest, PAGE_SIZE) == rest;
    } else {
      assert rest == Take(rest, PAGE_SIZE) + Drop(rest, PAGE_SIZE);
      assert done + rest == (done + Take(rest, PAGE_SIZE)) + Drop(rest, PAGE_SIZE);
    }
  }

  /** A folder met on the way is where the server will find it, and smaller. */
  lemma {:induction false} Subfolder(root: seq<Entry>, at: seq<string>, k: nat)
    requires TreeOk(root) && Lookup(root, at).Some? && k < |Lookup(root, at).value|
    ensures var e := Lookup(root, at).value[k];
            IsSegment(e.name) &&
            (e.Folder? ==>
             Lookup(root, at + [e.name]) == Some(e.entries) && Size(e.entries) < Size(Lookup(root, at).value))
  {
    LookupIsOk(root, at);
    EntryIsOk(Lookup(root, at).value, k);
    LookupSnoc(root, at, Lookup(root, at).value[k].name);
  }

  /** A walk of a directory between two of its pages. */
  ghost predicate BetweenPages(failing: set<nat>, entries: seq<Entry>, prefix: seq<string>, done: seq<Entry>,
                               pages: nat, files: seq<Entry>, first: nat, sent: nat)
  {
    AtPage(entries, done, pages) && Walking(failing, entries, prefix, done, pages, files, first, sent)
  }

  lemma {:induction false} WalkStart(failing: set<nat>, entries: seq<Entry>, prefix: seq<string>, first: nat)
    ensures BetweenPages(failing, entries, prefix, [], 0, [], first, first)
  {
  }

  lemma {:induction false} PageFetched(failing: set<nat>, entries: seq<Entry>, prefix: seq<string>, done: seq<Entry>,
                                       pages: nat, files: seq<Entry>, first: nat, sent: nat)
    requires BetweenPages(failing, entries, prefix, done, pages, files, first, sent)
    ensures if sent in failing then StoppedRight(failing, first, Requests(entries), sent + 1, false)
            else && Walking(failing, entries, prefix, done, pages + 1, files, first, sent + 1)
                 && pages + 1 <= |entries| / PAGE_SIZE + 1 && done + Page(entries, pages, PAGE_SIZE) <= entries
  {
    PageOfRest(entries, done, pages);
    WalkFetch(failing, entries, prefix, done, pages, files, first, sent);
  }

  lemma {:induction false} PageWalked(failing: set<nat>, entries: seq<Entry>, prefix: seq<string>, done: seq<Entry>,
                                      pages: nat, files: seq<Entry>, first: nat, sent: nat)
    requires AtPage(entries, done, pages)
    requires Walking(failing, entries, prefix, done + Page(entries, pages, PAGE_SIZE), pages + 1, files, first, sent)
    ensures if |Page(entries, pages, PAGE_SIZE)| < PAGE_SIZE
            then && StoppedRight(failing, first, Requests(entries), sent, true)
                 && Sorted(SortByName(files)) && Walked(entries, prefix, SortByName(files))
            else && BetweenPages(failing, entries, prefix, done + Page(entries, pages, PAGE_SIZE), pages + 1, files,
                                 first, sent)
                 && Left(entries, pages + 1) < Left(entries, pages)
  {
    PageOfRest(entries, done, pages);
    SortByNameSorts(files);
  }

  /** `list_folder_raw_items_recursive`: page after page, into each subfolder as it comes up. */
  method ListRecursive(client: Client, folderName: string, counter: Counter?, rootDir: string, subpath: string,
                       ghost prefix: seq<string>)
    returns (r: Result<seq<Entry>, Error>)
    requires TreeOk(client.root) && Segments(prefix) && subpath == Join(prefix, "/")
    modifies client, counter
    ensures counter != null ==> counter.value == old(counter.value) + client.sent - old(client.sent)
    ensures match Lookup(client.root, Directory(rootDir, folderName, prefix))
            case None => r.Err? && client.sent == old(client.sent) + 1
            case Some(entries) =>
              && StoppedRight(client.failing, old(client.sent), Requests(entries), client.sent, r.Ok?)
              && (r.Ok? ==> Sorted(r.value) && Walked(entries, prefix, r.value))
    decreases Size(Lookup(client.root, Directory(rootDir, folderName, prefix)).GetOr([])), 3
  {
    var path := WalkPath(rootDir, folderName, subpath);
    RequestPath(rootDir, folderName, prefix);
    ghost var found := Lookup(client.root, Directory(rootDir, folderName, prefix));
    ghost var entries := found.GetOr([]);
    var files: seq<Entry>, pageIndex, last := [], 0, false;
    ghost var done: seq<Entry> := [];
    WalkStart(client.failing, entries, prefix, client.sent);
    while !last
      invariant found.None? ==> !last && client.sent == old(client.sent)
      invariant if last
                then StoppedRight(client.failing, old(client.sent), Requests(entries), client.sent, true) &&
                Walked(entries, prefix, files)
                else BetweenPages(client.failing, entries, prefix, done, pageIndex, files, old(client.sent),
                                  client.sent)
      invariant counter != null ==> counter.value == old(counter.value) + client.sent - old(client.sent)
      decreases !last, Left(entries, pageIndex)
    {
      var more: Result<seq<Entry>, Error>;
      more, last := NextPage(client, folderName, counter, rootDir, subpath, path, pageIndex, files, prefix, entries,
                             done, old(client.sent));
      if more.Err? {
        return more;
      }
      files := more.value;
      done := done + Page(entries, pageIndex, PAGE_SIZE);
      pageIndex := pageIndex + 1;
    }
    SortByNameSorts(files);
    return Ok(SortByName(files));
  }

  /** Fetch one page and deal with its records; a page that is not full is the last. */
  method NextPage(client: Client, folderName: string, counter: Counter?, rootDir: string, subpath: string, path: string,
                  pageIndex: nat, files: seq<Entry>, ghost prefix: seq<string>, ghost entries: seq<Entry>,
                  ghost done: seq<Entry>, ghost first: nat)
    returns (r: Result<seq<Entry>, Error>, last: bool)
    requires TreeOk(client.root) && Segments(prefix) && subpath == Join(prefix, "/")
    requires Components(path) == Directory(rootDir, folderName, prefix)
    requires entries == Lookup(client.root, Directory(rootDir, folderName, prefix)).GetOr([])
    requires BetweenPages(client.failing, entries, prefix, done, pageIndex, files, first, client.sent)
    modifies client, counter
    ensures counter != null ==> counter.value == old(counter.value) + client.sent - old(client.sent)
    ensures Lookup(client.root, Directory(rootDir, folderName, prefix)).None? ==>
            r.Err? && client.sent == old(client.sent) + 1
    ensures Lookup(client.root, Directory(rootDir, folderName, prefix)).Some? && r.Err? ==>
              StoppedRight(client.failing, first, Requests(entries), client.sent, false)
    ensures r.Ok? && last ==>
            StoppedRight(client.failing, first, Requests(entries), client.sent, true) &&
            Walked(entries, prefix, r.value)
    ensures r.Ok? && !last ==>
              && BetweenPages(client.failing, entries, prefix, done + Page(entries, pageIndex, PAGE_SIZE),
                              pageIndex + 1, r.value, first, client.sent)
              && Left(entries, pageIndex + 1) < Left(entries, pageIndex)
    decreases Size(entries), 2
  {
    PageFetched(client.failing, entries, prefix, done, pageIndex, files, first, client.sent);
    if counter != null {
      counter.value := counter.value + 1;
    }
    var page := client.FetchFolderPage(path, pageIndex, PAGE_SIZE);
    if page.Err? {
      return Err(page.error), false;
    }
    last := |page.value| < PAGE_SIZE;
    r := WalkPage(client, folderName, counter, rootDir, subpath, page.value, files, prefix, entries, done,
                  pageIndex + 1, first);
    if r.Ok? {
      PageWalked(client.failing, entries, prefix, done, pageIndex, r.value, first, client.sent);
    }
  }

  /** The records of one page, after the files found so far. */
  method WalkPage(client: Client, folderName: string, counter: Counter?, rootDir: string, subpath: string,
                  page: seq<Entry>, files: seq<Entry>, ghost prefix: seq<string>, ghost entries: seq<Entry>,
                  ghost done: seq<Entry>, ghost fetched: nat, ghost first: nat)
    returns (r: Result<seq<Entry>, Error>)
    requires TreeOk(client.root) && Segments(prefix) && subpath == Join(prefix, "/")
    requires Lookup(client.root, Directory(rootDir, folderName, prefix)) == Some(entries)
    requires Walking(client.failing, entries, prefix, done, fetched, files, first, client.sent)
    requires done + page <= entries && fetched <= |entries| / PAGE_SIZE + 1
    modifies client, counter
    ensures counter != null ==> counter.value == old(counter.value) + client.sent - old(client.sent)
    ensures r.Ok? ==> Walking(client.failing, entries, prefix, done + page, fetched, r.value, first, client.sent)
    ensures r.Err? ==> StoppedRight(client.failing, first, Requests(entries), client.sent, false)
    decreases Size(entries), 1
  {
    var found := files;
    ghost var so := done;
    for k := 0 to |page|
      invariant so == done + page[..k]
      invariant Walking(client.failing, entries, prefix, so, fetched, found, first, client.sent)
      invariant counter != null ==> counter.value == old(counter.value) + client.sent - old(client.sent)
    {
      NextRecord(entries, done, page, k);
      r := WalkItem(client, folderName, counter, rootDir, subpath, page[k], found, prefix, entries, so, fetched, first);
      if r.Err? {
        return;
      }
      found := r.value;
      so := so + [page[k]];
    }
    assert page[..|page|] == page;
    return Ok(found);
  }

  lemma {:induction false} NextRecord(entries: seq<Entry>, done: seq<Entry>, page: seq<Entry>, k: nat)
    requires done + page <= entries && k < |page|
    ensures var so := done + page[..k];
            |so| < |entries| && entries[|so|] == page[k] && so + [page[k]] == done + page[..k + 1]
  {
    assert entries[|done| + k] == (done + page)[|done| + k];
  }

  /** One record of a page: a file gets its relative name, a folder is walked. */
  method WalkItem(client: Client, folderName: string, counter: Counter?, rootDir: string, subpath: string, item: Entry,
                  files: seq<Entry>, ghost prefix: seq<string>, ghost entries: seq<Entry>, ghost done: seq<Entry>,
                  ghost fetched: nat, ghost first: nat)
    returns (r: Result<seq<Entry>, Error>)
    requires TreeOk(client.root) && Segments(prefix) && subpath == Join(prefix, "/")
    requires Lookup(client.root, Directory(rootDir, folderName, prefix)) == Some(entries)
    requires Walking(client.failing, entries, prefix, done, fetched, files, first, client.sent)
    requires |done| < |entries| && entries[|done|] == item && fetched <= |entries| / PAGE_SIZE + 1
    modifies client, counter
    ensures counter != null ==> counter.value == old(counter.value) + client.sent - old(client.sent)
    ensures r.Ok? ==> Walking(client.failing, entries, prefix, done + [item], fetched, r.value, first, client.sent)
    ensures r.Err? ==> StoppedRight(client.failing, first, Requests(entries), client.sent, false)
    decreases Size(entries), 0
  {
    Subfolder(client.root, Directory(rootDir, folderName, prefix), |done|);
    SubfolderPath(prefix, item.name);
    var more: seq<Entry>;
    if item.Folder? {
      DirectoryBelow(rootDir, folderName, prefix, item.name);
      var nested := ListRecursive(client, folderName, counter, rootDir, Strip(Below(subpath, item.name), '/'),
                                  prefix + [item.name]);
      WalkEntry(client.failing, entries, prefix, done, fetched, files, first, old(client.sent), nested.GetOr([]),
                client.sent, nested.Ok?);
      if nested.Err? {
        return nested;
      }
      more := nested.value;
    } else {
      more := [File(Below(subpath, item.name), item.id)];
      WalkEntry(client.failing, entries, prefix, done, fetched, files, first, client.sent, more, client.sent, true);
    }
    return Ok(files + more);
  }

  lemma {:induction false} DirectoryBelow(rootDir: string, folderName: string, prefix: seq<string>, name: string)
    ensures Directory(rootDir, folderName, prefix + [name]) == Directory(rootDir, folderName, prefix) + [name]
  {
  }
}
