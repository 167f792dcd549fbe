/** Python string operations the pipeline relies on, over sequences of characters. */
module Text {

  /** ASCII `str.lower()` of one character. */
  function LowerChar(c: char): char {
    if 'A' <= c <= 'Z' then (c as int + 32) as char else c
  }

  function Lower(s: string): (r: string)
    ensures |r| == |s|
  {
    seq(|s|, i requires 0 <= i < |s| => LowerChar(s[i]))
  }

  predicate EndsWith(s: string, suffix: string) {
    |suffix| <= |s| && s[|s| - |suffix|..] == suffix
  }

  predicate OccursAt(s: string, sub: string, i: int) {
    0 <= i <= |s| - |sub| && s[i..i + |sub|] == sub
  }

  /** Python's `sub in s`. */
  predicate Contains(s: string, sub: string) {
    exists i :: 0 <= i <= |s| && OccursAt(s, sub, i)
  }

  lemma {:induction false} ContainsChain(a: string, b: string, c: string)
    requires Contains(a, b) && Contains(b, c)
    ensures Contains(a, c)
  {
    var i :| 0 <= i <= |a| && OccursAt(a, b, i);
    var j :| 0 <= j <= |b| && OccursAt(b, c, j);
    forall k | 0 <= k < |c| ensures a[i + j + k] == c[k] {
      assert a[i..i + |b|][j + k] == b[j + k];
      assert b[j..j + |c|][k] == c[k];
    }
    assert a[i + j..i + j + |c|] == c;
    assert OccursAt(a, c, i + j);
  }

  lemma {:induction false} ContainsItself(s: string)
    ensures Contains(s, s)
  {
    assert s[0..0 + |s|] == s;
    assert OccursAt(s, s, 0);
  }

  predicate SlashFree(s: string) { '/' !in s }

  /** A usable path segment: what a directory or file name looks like. */
  predicate IsSegment(s: string) { s != "" && SlashFree(s) }

  /** `s.split(sep)`: always at least one piece, empty pieces kept. */
  function Split(s: string, sep: char): (r: seq<string>)
    ensures |r| >= 1
  {
    if s == "" then [""]
    else
      var r := Split(s[1..], sep);
      if s[0] == sep then [""] + r else [[s[0]] + r[0]] + r[1..]
  }

  function StripLeft(s: string, c: char): string {
    if s != "" && s[0] == c then StripLeft(s[1..], c) else s
  }

  function StripRight(s: string, c: char): string {
    if s != "" && s[|s| - 1] == c then StripRight(s[..|s| - 1], c) else s
  }

  /** `s.strip(c)`. */
  function Strip(s: string, c: char): string {
    StripRight(StripLeft(s, c), c)
  }

  /** `sep.join(parts)` for a non-empty list. */
  function Join(parts: seq<string>, sep: string): string {
    if parts == [] then "" else if |parts| == 1 then parts[0] else parts[0] + sep + Join(parts[1..], sep)
  }

  function NonEmpty(parts: seq<string>): seq<string> {
    if parts == [] then []
    else if parts[0] == "" then NonEmpty(parts[1..])
    else [parts[0]] + NonEmpty(parts[1..])
  }

  /** The directory names a server reads out of a path: empty segments mean nothing. */
  function Components(path: string): seq<string> {
    NonEmpty(Split(path, '/'))
  }

  /** `s.replace("//", "/")`: one left-to-right pass over non-overlapping pairs. */
  function CollapseSlashes(s: string): string {
    if |s| < 2 then s
    else if s[0] == '/' && s[1] == '/' then "/" + CollapseSlashes(s[2..])
    else [s[0]] + CollapseSlashes(s[1..])
  }

  lemma {:induction false} SplitConcat(a: string, sep: char, b: string)
    ensures Split(a + [sep] + b, sep) == Split(a, sep) + Split(b, sep)
  {
    var s := a + [sep] + b;
    if a == "" {
      assert s[1..] == b;
    } else {
      assert s[1..] == a[1..] + [sep] + b;
      SplitConcat(a[1..], sep, b);
    }
  }

  lemma {:induction false} NonEmptyConcat(a: seq<string>, b: seq<string>)
    ensures NonEmpty(a + b) == NonEmpty(a) + NonEmpty(b)
  {
    if a == [] {
      assert a + b == b;
    } else {
      assert (a + b)[1..] == a[1..] + b;
      NonEmptyConcat(a[1..], b);
    }
  }

  lemma {:induction false} ComponentsConcat(a: string, b: string)
    ensures Components(a + "/" + b) == Components(a) + Components(b)
  {
    SplitConcat(a, '/', b);
    NonEmptyConcat(Split(a, '/'), Split(b, '/'));
  }

  /** Collapsing doubled slashes never changes which directory a path names. */
  lemma {:induction false} CollapseKeepsComponents(s: string)
    ensures Split(CollapseSlashes(s), '/')[0] == Split(s, '/')[0]
    ensures NonEmpty(Split(CollapseSlashes(s), '/')[1..]) == NonEmpty(Split(s, '/')[1..])
    ensures Components(CollapseSlashes(s)) == Components(s)
    decreases |s|
  {
    if |s| < 2 {
    } else if s[0] == '/' && s[1] == '/' {
      CollapseKeepsComponents(s[2..]);
      assert s[1..][1..] == s[2..];
      var rest := CollapseSlashes(s[2..]);
      assert CollapseSlashes(s) == ['/'] + rest;
      SplitCons('/', rest);
      SplitCons('/', s[2..]);
      SplitCons('/', s[1..]);
      assert s == ['/'] + s[1..] && s[1..] == ['/'] + s[2..];
    } else {
      CollapseKeepsComponents(s[1..]);
      var rest := CollapseSlashes(s[1..]);
      assert s == [s[0]] + s[1..] && CollapseSlashes(s) == [s[0]] + rest;
      SplitCons(s[0], s[1..]);
      SplitCons(s[0], rest);
    }
  }

  lemma {:induction false} SplitCons(c: char, s: string)
    ensures Split([c] + s, '/') ==
            if c == '/' then [""] + Split(s, '/') else [[c] + Split(s, '/')[0]] + Split(s, '/')[1..]
    ensures Components(s) ==
            (if Split(s, '/')[0] == "" then [] else [Split(s, '/')[0]]) + NonEmpty(Split(s, '/')[1..])
  {
    assert ([c] + s)[1..] == s;
  }

  lemma {:induction false} SplitWithoutSeparator(s: string, sep: char)
    requires sep !in s
    ensures Split(s, sep) == [s]
  {
    if s != "" {
      SplitWithoutSeparator(s[1..], sep);
      assert [s[0]] + s[1..] == s;
    }
  }

  lemma {:induction false} SegmentComponents(s: string)
    requires SlashFree(s)
    ensures Components(s) == if s == "" then [] else [s]
  {
    SplitWithoutSeparator(s, '/');
    assert NonEmpty([s]) == if s == "" then [] else [s] + NonEmpty([s][1..]);
  }

  /** Joining segments and splitting again gives the same segments. */
  lemma {:induction false} JoinComponents(parts: seq<string>)
    requires forall p :: p in parts ==> IsSegment(p)
    ensures Components(Join(parts, "/")) == parts
  {
    if parts == [] {
    } else if |parts| == 1 {
      assert parts == [parts[0]];
      assert IsSegment(parts[0]);
      SegmentComponents(parts[0]);
    } else {
      var rest := parts[1..];
      assert IsSegment(parts[0]) && forall p :: p in rest ==> p in parts;
      JoinComponents(rest);
      ComponentsConcat(parts[0], Join(rest, "/"));
      SegmentComponents(parts[0]);
      assert parts == [parts[0]] + rest;
    }
  }

  lemma {:induction false} JoinSplit(s: string, sep: char)
    ensures Join(Split(s, sep), [sep]) == s
  {
    if s != "" {
      JoinSplit(s[1..], sep);
      var rest := Split(s[1..], sep);
      assert s == [s[0]] + s[1..];
      if s[0] == sep {
        assert ([""] + rest)[1..] == rest;
      } else {
        var parts := [[s[0]] + rest[0]] + rest[1..];
        assert parts[1..] == rest[1..];
        assert Join(parts, [sep]) == [s[0]] + Join(rest, [sep]);
      }
    }
  }

  lemma {:induction false} JoinConcat(a: seq<string>, b: seq<string>, sep: string)
    requires a != [] && b != []
    ensures Join(a + b, sep) == Join(a, sep) + sep + Join(b, sep)
    decreases |a|
  {
    assert (a + b)[0] == a[0] && (a + b)[1..] == a[1..] + b;
    if |a| == 1 {
      assert a[1..] + b == b;
    } else {
      JoinConcat(a[1..], b, sep);
    }
  }

  lemma {:induction false} SplitJoin(parts: seq<string>, sep: char)
    requires parts != [] && forall p :: p in parts ==> sep !in p
    ensures Split(Join(parts, [sep]), sep) == parts
  {
    assert parts[0] in parts;
    SplitWithoutSeparator(parts[0], sep);
    if |parts| > 1 {
      SplitJoin(parts[1..], sep);
      SplitConcat(parts[0], sep, Join(parts[1..], [sep]));
    }
  }

  lemma {:induction false} PartsAreFree(s: string, sep: char)
    ensures forall p :: p in Split(s, sep) ==> sep !in p
  {
    if s != "" {
      PartsAreFree(s[1..], sep);
      var r := Split(s[1..], sep);
      assert r[0] in r && forall p :: p in r[1..] ==> p in r;
    }
  }

  /** A string with a non-slash at each end is not changed by stripping. */
  /** One separator on either side comes off. */
  lemma {:induction false} StripEnclosed(base: string, c: char)
    requires base != "" && base[0] != c && base[|base| - 1] != c
    ensures Strip([c] + base + [c], c) == base
  {
    var left := base + [c];
    assert ([c] + base + [c])[1..] == left && left[..|base|] == base;
    assert StripRight(left, c) == StripRight(base, c) == base;
    assert StripLeft(left, c) == left && StripLeft([c] + base + [c], c) == StripLeft(left, c);
  }

  lemma {:induction false} StripNoop(s: string)
    requires s != "" && s[0] != '/' && s[|s| - 1] != '/'
    ensures Strip(s, '/') == s
  {
  }

  /** Lower-casing keeps prefixes. */
  lemma {:induction false} LowerPrefix(p: string, s: string)
    requires p <= s
    ensures Lower(p) <= Lower(s)
  {
    assert forall i :: 0 <= i < |p| ==> p[i] == s[i];
  }

  // ---- Order ----------------------------------------------------------------------------------

  /** Lexicographic order by character. */
  predicate StrLe(a: string, b: string) {
    if a == "" then true
    else if b == "" then false
    else if a[0] != b[0] then a[0] < b[0]
    else StrLe(a[1..], b[1..])
  }

  lemma {:induction false} StrLeTotal(a: string, b: string)
    ensures StrLe(a, b) || StrLe(b, a)
    ensures StrLe(a, b) && StrLe(b, a) ==> a == b
  {
    if a != "" && b != "" && a[0] == b[0] {
      StrLeTotal(a[1..], b[1..]);
      assert a == [a[0]] + a[1..] && b == [b[0]] + b[1..];
    }
  }

  lemma {:induction false} StrLeTransitive(a: string, b: string, c: string)
    requires StrLe(a, b) && StrLe(b, c)
    ensures StrLe(a, c)
  {
    if a != "" && a[0] == b[0] == c[0] {
      StrLeTransitive(a[1..], b[1..], c[1..]);
    }
  }
}
