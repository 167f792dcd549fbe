/** Writing a batch into a lakehouse table: the relational MERGE by composite key, its append fallback, and their
    retries. */
module IcebergMerge {
  import opened Prelude

  datatype Cell = Null | Val(v: string)

  /** A row by column name; rows of one table have the same columns. */
  type Row = map<string, Cell>

  datatype Error = EmptyKeys | Cardinality | StatementFailed

  /** The composite key of a row; an absent column reads as NULL. */
  function KeyOf(row: Row, keys: seq<string>): (k: seq<Cell>)
    ensures |k| == |keys|
  {
    seq(|keys|, i requires 0 <= i < |keys| => if keys[i] in row then row[keys[i]] else Null)
  }

  /** `t.k1 = s.k1 AND t.k2 = s.k2 ...`: NULL equals nothing, not even NULL. */
  predicate Matches(t: Row, s: Row, keys: seq<string>) {
    KeyOf(t, keys) == KeyOf(s, keys) && Null !in KeyOf(t, keys)
  }

  /** Two rows match when they agree on every key column, and have a value there. */
  lemma {:induction false} MatchesExactly(t: Row, s: Row, keys: seq<string>)
    ensures Matches(t, s, keys) <==>
            forall k :: k in keys ==> k in t && k in s && t[k] == s[k] && t[k].Val?
  {
    if Matches(t, s, keys) {
      forall k | k in keys ensures k in t && k in s && t[k] == s[k] && t[k].Val? {
        var i :| 0 <= i < |keys| && keys[i] == k;
        assert KeyOf(t, keys)[i] == KeyOf(s, keys)[i] && KeyOf(t, keys)[i] in KeyOf(t, keys);
      }
    }
    if forall k :: k in keys ==> k in t && k in s && t[k] == s[k] && t[k].Val? {
      forall i | 0 <= i < |keys| ensures KeyOf(t, keys)[i] == KeyOf(s, keys)[i] && KeyOf(t, keys)[i].Val? {
        assert keys[i] in keys;
      }
    }
  }

  // ---- MERGE INTO ... WHEN MATCHED UPDATE SET * WHEN NOT MATCHED INSERT * ---------------------

  predicate HasMatch(row: Row, rows: seq<Row>, keys: seq<string>) {
    exists r :: r in rows && Matches(row, r, keys)
  }

  /** The statement is refused when two source rows match one target row. */
  predicate Ambiguous(table: seq<Row>, source: seq<Row>, keys: seq<string>) {
    exists t, i, j :: t in table && 0 <= i < j < |source| && Matches(t, source[i], keys) && Matches(t, source[j], keys)
  }

  function FirstMatch(row: Row, source: seq<Row>, keys: seq<string>): Row {
    if source == [] then row
    else if Matches(row, source[0], keys) then source[0]
    else FirstMatch(row, source[1..], keys)
  }

  function Updated(table: seq<Row>, source: seq<Row>, keys: seq<string>): (r: seq<Row>)
    ensures |r| == |table|
  {
    seq(|table|, i requires 0 <= i < |table| => FirstMatch(table[i], source, keys))
  }

  function Inserted(table: seq<Row>, source: seq<Row>, keys: seq<string>): seq<Row> {
    if source == [] then []
    else (if HasMatch(source[0], table, keys) then [] else [source[0]]) + Inserted(table, source[1..], keys)
  }

  function MergeRows(table: seq<Row>, source: seq<Row>, keys: seq<string>): Result<seq<Row>, Error> {
    if Ambiguous(table, source, keys) then Err(Cardinality)
    else Ok(Updated(table, source, keys) + Inserted(table, source, keys))
  }

  // ---- Keyed tables as maps -------------------------------------------------------------------

  function KeySet(rows: seq<Row>, keys: seq<string>): set<seq<Cell>> {
    set r | r in rows :: KeyOf(r, keys)
  }

  /** Every key is free of NULL and no key occurs twice. */
  predicate Keyed(rows: seq<Row>, keys: seq<string>) {
    rows == [] ||
    (Null !in KeyOf(rows[0], keys) && KeyOf(rows[0], keys) !in KeySet(rows[1..], keys) && Keyed(rows[1..], keys))
  }

  function AsMap(rows: seq<Row>, keys: seq<string>): map<seq<Cell>, Row> {
    if rows == [] then map[] else AsMap(rows[1..], keys)[KeyOf(rows[0], keys) := rows[0]]
  }

  lemma {:induction false} MapLookup(rows: seq<Row>, keys: seq<string>)
    ensures AsMap(rows, keys).Keys == KeySet(rows, keys)
    ensures forall k :: k in AsMap(rows, keys) ==>
            KeyOf(AsMap(rows, keys)[k], keys) == k && AsMap(rows, keys)[k] in rows
    ensures Keyed(rows, keys) ==>
              forall r :: r in rows ==> Null !in KeyOf(r, keys) && AsMap(rows, keys)[KeyOf(r, keys)] == r
  {
    if rows != [] {
      MapLookup(rows[1..], keys);
      assert rows == [rows[0]] + rows[1..];
    }
  }

  lemma {:induction false} KeySetConcat(a: seq<Row>, b: seq<Row>, keys: seq<string>)
    ensures KeySet(a + b, keys) == KeySet(a, keys) + KeySet(b, keys)
  {
    forall k | k in KeySet(a, keys) + KeySet(b, keys) ensures k in KeySet(a + b, keys) {
      var r :| (r in a || r in b) && KeyOf(r, keys) == k;
      assert r in a + b;
    }
  }

  lemma {:induction false} KeySetCons(rows: seq<Row>, keys: seq<string>)
    requires rows != []
    ensures KeySet(rows, keys) == {KeyOf(rows[0], keys)} + KeySet(rows[1..], keys)
  {
    assert rows == [rows[0]] + rows[1..];
    KeySetConcat([rows[0]], rows[1..], keys);
    assert KeySet([rows[0]], keys) == {KeyOf(rows[0], keys)} by {
      assert rows[0] in [rows[0]];
    }
  }

  lemma {:induction false} KeyedConcat(a: seq<Row>, b: seq<Row>, keys: seq<string>)
    ensures Keyed(a + b, keys) <==> Keyed(a, keys) && Keyed(b, keys) && KeySet(a, keys) !! KeySet(b, keys)
  {
    if a == [] {
      assert a + b == b;
    } else {
      assert (a + b)[1..] == a[1..] + b && (a + b)[0] == a[0];
      KeyedConcat(a[1..], b, keys);
      KeySetConcat(a[1..], b, keys);
      KeySetCons(a, keys);
    }
  }

  lemma {:induction false} AsMapConcat(a: seq<Row>, b: seq<Row>, keys: seq<string>)
    requires Keyed(a + b, keys)
    ensures AsMap(a + b, keys) == AsMap(a, keys) + AsMap(b, keys)
  {
    if a == [] {
      assert a + b == b;
    } else {
      assert (a + b)[1..] == a[1..] + b && (a + b)[0] == a[0];
      AsMapConcat(a[1..], b, keys);
      KeySetConcat(a[1..], b, keys);
      MapLookup(b, keys);
    }
  }

  /** A keyed table holds each row once. */
  lemma {:induction false} KeyedOnce(rows: seq<Row>, keys: seq<string>, r: Row)
    requires Keyed(rows, keys)
    ensures multiset(rows)[r] == if r in rows then 1 else 0
  {
    if rows != [] {
      KeyedOnce(rows[1..], keys, r);
      assert rows == [rows[0]] + rows[1..];
    }
  }

  lemma {:induction false} SameRowsSameMap(a: seq<Row>, b: seq<Row>, keys: seq<string>)
    requires Keyed(a, keys) && Keyed(b, keys) && multiset(a) == multiset(b)
    ensures AsMap(a, keys) == AsMap(b, keys)
  {
    forall k, r ensures Maps(a, keys, k, r) <==> Maps(b, keys, k, r) {
      MapsMembers(a, keys, k, r);
      MapsMembers(b, keys, k, r);
      assert r in multiset(a) <==> r in multiset(b);
    }
    var m, n := AsMap(a, keys), AsMap(b, keys);
    assert forall k :: k in m ==> Maps(a, keys, k, m[k]);
    assert forall k :: k in n ==> Maps(b, keys, k, n[k]);
  }

  predicate Maps(rows: seq<Row>, keys: seq<string>, k: seq<Cell>, r: Row) {
    k in AsMap(rows, keys) && AsMap(rows, keys)[k] == r
  }

  lemma {:induction false} MapsMembers(rows: seq<Row>, keys: seq<string>, k: seq<Cell>, r: Row)
    requires Keyed(rows, keys)
    ensures Maps(rows, keys, k, r) <==> r in rows && KeyOf(r, keys) == k
  {
    MapLookup(rows, keys);
  }

  /** Keyed tables with the same map hold the same rows. */
  lemma {:induction false} SameMapSameRows(a: seq<Row>, b: seq<Row>, keys: seq<string>)
    requires Keyed(a, keys) && Keyed(b, keys)
    ensures AsMap(a, keys) == AsMap(b, keys) <==> multiset(a) == multiset(b)
  {
    MapLookup(a, keys);
    MapLookup(b, keys);
    if AsMap(a, keys) == AsMap(b, keys) {
      forall r ensures multiset(a)[r] == multiset(b)[r] {
        KeyedOnce(a, keys, r);
        KeyedOnce(b, keys, r);
      }
    }
    if multiset(a) == multiset(b) {
      SameRowsSameMap(a, b, keys);
    }
  }

  // ---- What the statement leaves, row by row --------------------------------------------------

  lemma {:induction false} FirstMatchMatches(row: Row, source: seq<Row>, keys: seq<string>)
    ensures if HasMatch(row, source, keys)
            then FirstMatch(row, source, keys) in source && Matches(row, FirstMatch(row, source, keys), keys)
            else FirstMatch(row, source, keys) == row
  {
    if source != [] {
      assert source == [source[0]] + source[1..];
      FirstMatchMatches(row, source[1..], keys);
    }
  }

  lemma {:induction false} InsertedExactly(table: seq<Row>, source: seq<Row>, keys: seq<string>, r: Row)
    ensures multiset(Inserted(table, source, keys))[r] == if HasMatch(r, table, keys) then 0 else multiset(source)[r]
  {
    if source != [] {
      assert source == [source[0]] + source[1..];
      InsertedExactly(table, source[1..], keys, r);
    }
  }

  /** Whatever the two hold, the statement is refused when two source rows match one target row; otherwise each target
      row is replaced by the source row that matches it, if one does, and each source row without a match is added. */
  lemma {:induction false} MergeExactly(table: seq<Row>, source: seq<Row>, keys: seq<string>, i: nat, r: Row)
    requires i < |table|
    ensures MergeRows(table, source, keys).Err? <==> Ambiguous(table, source, keys)
    ensures MergeRows(table, source, keys).Ok? ==>
              var merged := MergeRows(table, source, keys).value;
              && |table| <= |merged|
              && (forall s :: s in source && Matches(table[i], s, keys) ==> merged[i] == s)
              && (!HasMatch(table[i], source, keys) ==> merged[i] == table[i])
              && multiset(merged[|table|..])[r] == if HasMatch(r, table, keys) then 0 else multiset(source)[r]
  {
    FirstMatchMatches(table[i], source, keys);
    InsertedExactly(table, source, keys, r);
    if MergeRows(table, source, keys).Ok? {
      var merged := MergeRows(table, source, keys).value;
      assert merged[|table|..] == Inserted(table, source, keys);
      forall s | s in source && Matches(table[i], s, keys) ensures merged[i] == s {
        var j :| 0 <= j < |source| && source[j] == s;
        var k :| 0 <= k < |source| && source[k] == merged[i];
        assert table[i] in table && Matches(table[i], source[j], keys) && Matches(table[i], source[k], keys);
        assert j == k;
      }
    }
  }

  // ---- MERGE refines map override -------------------------------------------------------------

  lemma {:induction false} FirstMatchLookup(row: Row, source: seq<Row>, keys: seq<string>)
    requires Null !in KeyOf(row, keys) && Keyed(source, keys)
    ensures KeyOf(FirstMatch(row, source, keys), keys) == KeyOf(row, keys)
    ensures FirstMatch(row, source, keys) ==
            if KeyOf(row, keys) in AsMap(source, keys) then AsMap(source, keys)[KeyOf(row, keys)] else row
  {
    if source != [] {
      FirstMatchLookup(row, source[1..], keys);
      MapLookup(source[1..], keys);
    }
  }

  /** `u` has the keys of `t`, with the values `s` gives where it gives any. */
  ghost predicate OverriddenIn<K, V>(t: map<K, V>, s: map<K, V>, u: map<K, V>) {
    u.Keys == t.Keys && forall k :: k in t ==> u[k] == if k in s then s[k] else t[k]
  }

  lemma {:induction false} OverrideInParts<K, V>(t: map<K, V>, s: map<K, V>, u: map<K, V>)
    requires OverriddenIn(t, s, u)
    ensures u + (s - t.Keys) == t + s
  {
  }

  lemma {:induction false} UpdatedAsMap(table: seq<Row>, source: seq<Row>, keys: seq<string>)
    requires Keyed(table, keys) && Keyed(source, keys)
    ensures KeySet(Updated(table, source, keys), keys) == KeySet(table, keys)
    ensures Keyed(Updated(table, source, keys), keys)
    ensures OverriddenIn(AsMap(table, keys), AsMap(source, keys), AsMap(Updated(table, source, keys), keys))
  {
    if table != [] {
      var u := Updated(table, source, keys);
      UpdatedAsMap(table[1..], source, keys);
      FirstMatchLookup(table[0], source, keys);
      assert u[1..] == Updated(table[1..], source, keys);
      KeySetCons(u, keys);
      KeySetCons(table, keys);
    }
  }

  lemma {:induction false} MatchedByKey(row: Row, table: seq<Row>, keys: seq<string>)
    requires Null !in KeyOf(row, keys)
    ensures HasMatch(row, table, keys) <==> KeyOf(row, keys) in KeySet(table, keys)
  {
    if KeyOf(row, keys) in KeySet(table, keys) {
      var r :| r in table && KeyOf(r, keys) == KeyOf(row, keys);
      assert Matches(row, r, keys);
    }
  }

  lemma {:induction false} InsertedKeys(table: seq<Row>, source: seq<Row>, keys: seq<string>)
    requires Keyed(source, keys)
    ensures Keyed(Inserted(table, source, keys), keys)
    ensures KeySet(Inserted(table, source, keys), keys) == KeySet(source, keys) - KeySet(table, keys)
  {
    if source != [] {
      InsertedKeys(table, source[1..], keys);
      MatchedByKey(source[0], table, keys);
      KeySetCons(source, keys);
      if !HasMatch(source[0], table, keys) {
        var n := Inserted(table, source, keys);
        assert n[0] == source[0] && n[1..] == Inserted(table, source[1..], keys);
        KeySetCons(n, keys);
      } else {
        assert Inserted(table, source, keys) == Inserted(table, source[1..], keys);
      }
    }
  }

  lemma {:induction false} InsertedComeFromSource(table: seq<Row>, source: seq<Row>, keys: seq<string>)
    ensures forall r :: r in Inserted(table, source, keys) ==> r in source
  {
    if source != [] {
      InsertedComeFromSource(table, source[1..], keys);
      assert source == [source[0]] + source[1..];
    }
  }

  lemma {:induction false} KeyedIsUnambiguous(table: seq<Row>, source: seq<Row>, keys: seq<string>)
    requires Keyed(source, keys)
    ensures !Ambiguous(table, source, keys)
  {
    if t, i, j :| t in table && 0 <= i < j < |source| && Matches(t, source[i], keys) && Matches(t, source[j], keys) {
      KeyedPositions(source, keys, i, j);
    }
  }

  lemma {:induction false} KeyedPositions(rows: seq<Row>, keys: seq<string>, i: nat, j: nat)
    requires Keyed(rows, keys) && i < j < |rows|
    ensures KeyOf(rows[i], keys) != KeyOf(rows[j], keys)
  {
    if i == 0 {
      assert rows[j] in rows[1..];
    } else {
      KeyedPositions(rows[1..], keys, i - 1, j - 1);
    }
  }

  lemma {:induction false} InsertedAsMap(table: seq<Row>, source: seq<Row>, keys: seq<string>)
    requires Keyed(table, keys) && Keyed(source, keys)
    ensures AsMap(Inserted(table, source, keys), keys) == AsMap(source, keys) - AsMap(table, keys).Keys
  {
    var n := Inserted(table, source, keys);
    InsertedKeys(table, source, keys);
    InsertedComeFromSource(table, source, keys);
    MapLookup(n, keys);
    MapLookup(source, keys);
    MapLookup(table, keys);
    forall k | k in AsMap(n, keys) ensures AsMap(n, keys)[k] == AsMap(source, keys)[k] {
      var r := AsMap(n, keys)[k];
      assert r in source && KeyOf(r, keys) == k;
    }
  }

  /** With NULL-free unique keys on both sides the MERGE is accepted, keeps keys unique, and overrides row by row. */
  lemma {:induction false} MergeRefinesOverride(table: seq<Row>, source: seq<Row>, keys: seq<string>)
    requires Keyed(table, keys) && Keyed(source, keys)
    ensures MergeRows(table, source, keys).Ok?
    ensures var merged := MergeRows(table, source, keys).value;
            Keyed(merged, keys) && AsMap(merged, keys) == AsMap(table, keys) + AsMap(source, keys)
  {
    KeyedIsUnambiguous(table, source, keys);
    UpdatedAsMap(table, source, keys);
    InsertedKeys(table, source, keys);
    InsertedAsMap(table, source, keys);
    var u, n := Updated(table, source, keys), Inserted(table, source, keys);
    KeyedConcat(u, n, keys);
    AsMapConcat(u, n, keys);
    OverrideInParts(AsMap(table, keys), AsMap(source, keys), AsMap(u, keys));
  }

  // ---- Retries --------------------------------------------------------------------------------

  /** A batch merged by a run that then failed, and a later batch: the table ends as if only the later one had been
      merged exactly when every row of the first is replaced by the later batch or was in the table already. */
  lemma {:induction false} RetryIsExactlyOnce(table: seq<Row>, first: seq<Row>, later: seq<Row>, keys: seq<string>)
    requires Keyed(table, keys) && Keyed(first, keys) && Keyed(later, keys)
    ensures MergeRows(table, first, keys).Ok? && MergeRows(MergeRows(table, first, keys).value, later, keys).Ok?
    ensures MergeRows(table, later, keys).Ok?
    ensures multiset(MergeRows(MergeRows(table, first, keys).value, later, keys).value) ==
            multiset(MergeRows(table, later, keys).value)
            <==> (forall r :: r in first ==> KeyOf(r, keys) in KeySet(later, keys) || r in table)
  {
    MergeRefinesOverride(table, first, keys);
    MergeRefinesOverride(MergeRows(table, first, keys).value, later, keys);
    MergeRefinesOverride(table, later, keys);
    SameMapSameRows(MergeRows(MergeRows(table, first, keys).value, later, keys).value,
                    MergeRows(table, later, keys).value, keys);
    MapLookup(table, keys);
    MapLookup(first, keys);
    MapLookup(later, keys);
    OverrideAgain(AsMap(table, keys), AsMap(first, keys), AsMap(later, keys));
    forall r | r in first {
      HeldAlready(table, first, keys, r);
    }
  }

  lemma {:induction false} HeldAlready(table: seq<Row>, first: seq<Row>, keys: seq<string>, r: Row)
    requires Keyed(table, keys) && Keyed(first, keys) && r in first
    ensures KeyOf(r, keys) in AsMap(first, keys)
    ensures r in table <==>
            KeyOf(r, keys) in AsMap(table, keys) &&
            AsMap(table, keys)[KeyOf(r, keys)] == AsMap(first, keys)[KeyOf(r, keys)]
  {
    MapLookup(table, keys);
    MapLookup(first, keys);
  }

  lemma {:induction false} OverrideAgain<K, V>(t: map<K, V>, f: map<K, V>, l: map<K, V>)
    ensures (t + f) + l == t + l <==> forall k :: k in f ==> k in l || (k in t && t[k] == f[k])
  {
    if (t + f) + l == t + l {
      forall k | k in f ensures k in l || (k in t && t[k] == f[k]) {
        assert k in (t + f) + l;
        assert ((t + f) + l)[k] == (t + l)[k];
      }
    }
  }

  /** In particular a retry that merges the failed batch again, with whatever else is pending by then. */
  lemma {:induction false} RetryOfContainedBatch(table: seq<Row>, first: seq<Row>, later: seq<Row>, keys: seq<string>)
    requires Keyed(table, keys) && Keyed(first, keys) && Keyed(later, keys) && forall r :: r in first ==> r in later
    ensures MergeRows(table, first, keys).Ok? && MergeRows(table, later, keys).Ok?
    ensures MergeRows(MergeRows(table, first, keys).value, later, keys).Ok?
    ensures multiset(MergeRows(MergeRows(table, first, keys).value, later, keys).value) ==
            multiset(MergeRows(table, later, keys).value)
  {
    RetryIsExactlyOnce(table, first, later, keys);
  }

  lemma {:induction false} NullIsAlwaysInserted(table: seq<Row>, source: seq<Row>, keys: seq<string>, s: Row)
    requires s in source && Null in KeyOf(s, keys)
    ensures s in Inserted(table, source, keys)
  {
    assert source == [source[0]] + source[1..];
    if s != source[0] {
      NullIsAlwaysInserted(table, source[1..], keys, s);
    }
  }

  lemma {:induction false} InsertedWhenUnmatched(table: seq<Row>, source: seq<Row>, keys: seq<string>, s: Row)
    requires s in source && !HasMatch(s, table, keys)
    ensures s in Inserted(table, source, keys)
  {
    assert source == [source[0]] + source[1..];
    if s != source[0] {
      InsertedWhenUnmatched(table, source[1..], keys, s);
    }
  }

  lemma {:induction false} UnkeyedHow(rows: seq<Row>, keys: seq<string>) returns (i: nat, j: nat)
    requires !Keyed(rows, keys)
    ensures i <= j < |rows|
    ensures if i == j then Null in KeyOf(rows[i], keys)
            else KeyOf(rows[i], keys) == KeyOf(rows[j], keys) && Null !in KeyOf(rows[i], keys)
  {
    if Null in KeyOf(rows[0], keys) {
      i, j := 0, 0;
    } else if !Keyed(rows[1..], keys) {
      i, j := UnkeyedHow(rows[1..], keys);
      i, j := i + 1, j + 1;
    } else {
      var r :| r in rows[1..] && KeyOf(r, keys) == KeyOf(rows[0], keys);
      var k :| 0 <= k < |rows[1..]| && rows[1..][k] == r;
      i, j := 0, k + 1;
    }
  }

  /** Merging a batch and merging it again succeed and agree exactly when its keys are NULL-free and unique:
      a NULL key is inserted once more on every retry, a repeated key makes every later retry fail. */
  lemma {:induction false} RetryStableExactlyWhenKeyed(table: seq<Row>, source: seq<Row>, keys: seq<string>)
    requires Keyed(table, keys)
    ensures Keyed(source, keys) <==>
            && MergeRows(table, source, keys).Ok?
            && MergeRows(MergeRows(table, source, keys).value, source, keys).Ok?
            && multiset(MergeRows(MergeRows(table, source, keys).value, source, keys).value) ==
               multiset(MergeRows(table, source, keys).value)
  {
    if Keyed(source, keys) {
      RetryIsExactlyOnce(table, source, source, keys);
    } else if MergeRows(table, source, keys).Ok? {
      var once := MergeRows(table, source, keys).value;
      var i, j := UnkeyedHow(source, keys);
      if i == j {
        NullIsAlwaysInserted(once, source, keys, source[i]);
        if MergeRows(once, source, keys).Ok? {
          assert |MergeRows(once, source, keys).value| > |once|;
          SameSize(MergeRows(once, source, keys).value, once);
        }
      } else {
        RepeatedKeyPoisons(table, source, keys, i, j);
      }
    }
  }

  lemma {:induction false} SameSize(a: seq<Row>, b: seq<Row>)
    ensures multiset(a) == multiset(b) ==> |a| == |b|
  {
    assert |multiset(a)| == |a| && |multiset(b)| == |b|;
  }

  lemma {:induction false} RepeatedKeyPoisons(table: seq<Row>, source: seq<Row>, keys: seq<string>, i: nat, j: nat)
    requires i < j < |source| && KeyOf(source[i], keys) == KeyOf(source[j], keys) && Null !in KeyOf(source[i], keys)
    requires MergeRows(table, source, keys).Ok?
    ensures MergeRows(MergeRows(table, source, keys).value, source, keys) == Err(Cardinality)
  {
    var s := source[i];
    if HasMatch(s, table, keys) {
      var t :| t in table && Matches(s, t, keys);
      assert Matches(t, source[i], keys) && Matches(t, source[j], keys);
      assert false;
    }
    InsertedWhenUnmatched(table, source, keys, s);
    assert s in MergeRows(table, source, keys).value && Matches(s, source[i], keys) && Matches(s, source[j], keys);
  }

  /** What a batch makes of a table: a merge by business key, or an append where the table has none. */
  function Written(before: seq<Row>, df: seq<Row>, keys: seq<string>): Result<seq<Row>, Error> {
    if keys == [] then Ok(before + df) else MergeRows(before, df, keys)
  }

  /** Both writes of the batch are accepted, and the second changes nothing. */
  ghost predicate RepeatChangesNothing(before: seq<Row>, df: seq<Row>, keys: seq<string>) {
    && Written(before, df, keys).Ok?
    && Written(Written(before, df, keys).value, df, keys).Ok?
    && multiset(Written(Written(before, df, keys).value, df, keys).value) == multiset(Written(before, df, keys).value)
  }

  lemma {:induction false} RepeatedAppend(before: seq<Row>, df: seq<Row>)
    ensures RepeatChangesNothing(before, df, []) <==> df == []
  {
    SameSize(before + df + df, before + df);
    if df == [] {
      assert before + df + df == before + df;
    }
  }

  /** Writing a batch twice is the same as writing it once exactly when it is empty, where the table has no business
      key, and exactly when its keys are NULL-free and unique, where it has: without a key every retry duplicates. */
  lemma {:induction false} RepeatedWriteExactly(before: seq<Row>, df: seq<Row>, keys: seq<string>)
    requires keys != [] ==> Keyed(before, keys)
    ensures RepeatChangesNothing(before, df, keys) <==> if keys == [] then df == [] else Keyed(df, keys)
  {
    if keys == [] {
      RepeatedAppend(before, df);
    } else {
      RetryStableExactlyWhenKeyed(before, df, keys);
    }
  }

  // ---- The session ----------------------------------------------------------------------------

  datatype Column = Column(dbName: string, kind: string, required: bool)

  /** `get_domain_business_keys`: the mandatory text and time columns, except the update time. `kind` is lower-case. */
  function BusinessKeys(columns: seq<Column>): seq<string> {
    if columns == [] then []
    else
      (if columns[0].required && columns[0].kind in {"string", "timestamp"} && columns[0].dbName != "update_time_utc"
       then [columns[0].dbName] else [])
      + BusinessKeys(columns[1..])
  }

  /** A column is a business key if and only if it is mandatory, text or time, and not the update time. */
  lemma {:induction false} BusinessKeysExact(columns: seq<Column>, name: string)
    ensures name in BusinessKeys(columns) <==>
            name != "update_time_utc" && exists c ::
            c in columns && c.dbName == name && c.required && c.kind in {"string", "timestamp"}
  {
    if columns != [] {
      BusinessKeysExact(columns[1..], name);
      assert columns == [columns[0]] + columns[1..];
    }
  }

  class Session {
    var tables: map<string, seq<Row>>
    var views: map<string, seq<Row>>

    /** `merge_dataframe_into_table`: register a view, run the statement, drop the view whatever happens. */
    method MergeDataframeIntoTable(df: seq<Row>, name: string, keys: seq<string>, view: string, fails: bool)
      returns (r: Result<(), Error>)
      requires name in tables && view !in views
      modifies this
      ensures views == old(views)
      ensures keys == [] ==> r == Err(EmptyKeys)
      ensures keys != [] && fails ==> r == Err(StatementFailed)
      ensures keys != [] && !fails ==>
              (r.Ok? <==> MergeRows(old(tables)[name], df, keys).Ok?) && (r.Err? ==> r.error == Cardinality)
      ensures tables == if r.Ok? then old(tables)[name := MergeRows(old(tables)[name], df, keys).value] else old(tables)
    {
      if keys == [] {
        return Err(EmptyKeys);
      }
      views := views[view := df];
      if fails {
        r := Err(StatementFailed);
      } else {
        var merged := MergeRows(tables[name], views[view], keys);
        if merged.Ok? {
          tables := tables[name := merged.value];
          r := Ok(());
        } else {
          r := Err(merged.error);
        }
      }
      views := views - {view};
    }

    /** `add_csv_to_iceberg_table`: create the table if needed, then merge by business key, or append when there is
        none. */
    method AddCsv(df: seq<Row>, name: string, schema: Option<seq<Column>>, view: string, fails: bool)
      returns (r: Result<(), Error>)
      requires view !in views
      modifies this
      ensures views == old(views)
      ensures var keys := if schema.Some? then BusinessKeys(schema.value) else [];
              var before := if name in old(tables) then old(tables)[name] else [];
              && (r.Ok? <==> !fails && Written(before, df, keys).Ok?)
              && tables == old(tables)[name := if r.Err? then before else Written(before, df, keys).value]
    {
      var keys := if schema.Some? then BusinessKeys(schema.value) else [];
      if name !in tables {
        tables := tables[name := []];
      }
      if keys == [] {
        if fails {
          return Err(StatementFailed);
        }
        tables := tables[name := tables[name] + df];
        return Ok(());
      }
      r := MergeDataframeIntoTable(df, name, keys, view, fails);
    }
  }
}
