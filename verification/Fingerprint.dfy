/** The text whose hash stands for the state of a remote file, and how far it tells states apart. */
module Fingerprint {
  import opened Prelude
  import opened Text
  import opened Protocol

  datatype FileState = FileState(name: string, size: int, lastUpdated: string)

  // ---- Decimal numerals -----------------------------------------------------------------------

  const DIGITS: string := "0123456789"

  function Digits(n: nat): string {
    if n < 10 then [DIGITS[n]] else Digits(n / 10) + [DIGITS[n % 10]]
  }

  /** An integer as it is formatted into text. */
  function Decimal(n: int): string {
    if n < 0 then "-" + Digits(-n) else Digits(n)
  }

  function DigitValue(c: char): int {
    c as int - '0' as int
  }

  function ParseDigits(s: string): int {
    if s == "" then 0 else 10 * ParseDigits(s[..|s| - 1]) + DigitValue(s[|s| - 1])
  }

  function Parse(s: string): int {
    if s != "" && s[0] == '-' then -ParseDigits(s[1..]) else ParseDigits(s)
  }

  lemma {:induction false} DigitsParse(n: nat)
    ensures Digits(n) != "" && ParseDigits(Digits(n)) == n
    ensures forall c :: c in Digits(n) ==> c != '_' && c != '-'
  {
    if n < 10 {
      var s := [DIGITS[n]];
      assert s[..0] == "" && DigitValue(DIGITS[n]) == n;
    } else {
      DigitsParse(n / 10);
      var s := Digits(n);
      assert s[..|s| - 1] == Digits(n / 10) && DigitValue(DIGITS[n % 10]) == n % 10;
    }
  }

  lemma {:induction false} DecimalParse(n: int)
    ensures Parse(Decimal(n)) == n && '_' !in Decimal(n)
  {
    DigitsParse(if n < 0 then -n else n);
    if n >= 0 {
      assert Digits(n)[0] in Digits(n);
    } else {
      assert ("-" + Digits(-n))[1..] == Digits(-n);
    }
  }

  lemma {:induction false} DigitsCanonical(n: nat)
    ensures forall c :: c in Digits(n) ==> '0' <= c <= '9'
    ensures Digits(n) != "" && (Digits(n)[0] == '0' ==> n == 0)
  {
    if n >= 10 {
      DigitsCanonical(n / 10);
    }
  }

  /** The numeral is the usual one: digits without a leading zero, after a minus sign if negative. */
  lemma {:induction false} DecimalCanonical(n: int)
    ensures n < 0 ==> Decimal(n) == "-" + Decimal(-n)
    ensures n >= 0 ==>
              && Decimal(n) != "" && (Decimal(n)[0] == '0' ==> n == 0)
              && forall c :: c in Decimal(n) ==> '0' <= c <= '9'
  {
    DigitsCanonical(if n < 0 then -n else n);
  }

  // ---- The fingerprint ------------------------------------------------------------------------

  /** The text `calculate_idempotency_hash` hashes. */
  function Signature(f: FileState): string {
    f.name + "_" + Decimal(f.size) + "_" + f.lastUpdated
  }

  /** Reading it back: the last two underscores end the name and the size. */
  function Decode(s: string): Option<FileState> {
    var parts := Split(s, '_');
    if |parts| < 3 then None
    else Some(FileState(Join(parts[..|parts| - 2], "_"), Parse(parts[|parts| - 2]), parts[|parts| - 1]))
  }

  lemma {:induction false} SignatureParts(f: FileState)
    ensures Split(Signature(f), '_') == Split(f.name, '_') + [Decimal(f.size)] + Split(f.lastUpdated, '_')
  {
    DecimalParse(f.size);
    SplitWithoutSeparator(Decimal(f.size), '_');
    SplitConcat(f.name, '_', Decimal(f.size));
    SplitConcat(f.name + "_" + Decimal(f.size), '_', f.lastUpdated);
  }

  /** A time without underscores lets the state be read back, whatever the name. */
  lemma {:induction false} DecodeSignature(f: FileState)
    requires '_' !in f.lastUpdated
    ensures Decode(Signature(f)) == Some(f)
  {
    SignatureParts(f);
    SplitWithoutSeparator(f.lastUpdated, '_');
    DecimalParse(f.size);
    JoinSplit(f.name, '_');
    var parts := Split(Signature(f), '_');
    assert parts == Split(f.name, '_') + [Decimal(f.size)] + [f.lastUpdated];
    assert parts[..|parts| - 2] == Split(f.name, '_');
  }

  /** More generally, states whose times have equally many underscores have different texts. */
  lemma {:induction false} SignatureInjective(f: FileState, g: FileState)
    requires |Split(f.lastUpdated, '_')| == |Split(g.lastUpdated, '_')|
    ensures Signature(f) == Signature(g) <==> f == g
  {
    if Signature(f) == Signature(g) {
      SignatureParts(f);
      SignatureParts(g);
      SameParts(Split(f.name, '_'), Decimal(f.size), Split(f.lastUpdated, '_'), Split(g.name, '_'), Decimal(g.size),
                Split(g.lastUpdated, '_'));
      JoinSplit(f.name, '_');
      JoinSplit(g.name, '_');
      JoinSplit(f.lastUpdated, '_');
      JoinSplit(g.lastUpdated, '_');
      DecimalParse(f.size);
      DecimalParse(g.size);
    }
  }

  lemma {:induction false} SameParts<T>(a: seq<T>, x: T, b: seq<T>, c: seq<T>, y: T, d: seq<T>)
    requires a + [x] + b == c + [y] + d && |b| == |d|
    ensures a == c && x == y && b == d
  {
    var s, t := a + [x] + b, c + [y] + d;
    assert |a| == |c|;
    assert s[..|a|] == a && t[..|c|] == c;
    assert s[|a|] == x && t[|c|] == y;
    assert s[|a| + 1..] == b && t[|c| + 1..] == d;
  }

  // ---- Exactly when the text is ambiguous -----------------------------------------------------

  /** A part between the first and the last that could be read as the size. */
  ghost predicate ReadsAsSize(parts: seq<string>, i: int) {
    0 < i < |parts| - 1 && exists n :: Decimal(n) == parts[i]
  }

  /** The state read with part `i` as the size. */
  function ReadAt(parts: seq<string>, i: int): FileState
    requires 0 < i < |parts| - 1
  {
    FileState(Join(parts[..i], "_"), Parse(parts[i]), Join(parts[i + 1..], "_"))
  }

  lemma {:induction false} ReadAtHasTheText(s: string, i: int)
    requires ReadsAsSize(Split(s, '_'), i)
    ensures var g := ReadAt(Split(s, '_'), i); Signature(g) == s && |Split(g.name, '_')| == i
  {
    var parts := Split(s, '_');
    var n :| Decimal(n) == parts[i];
    DecimalParse(n);
    JoinSplit(s, '_');
    JoinAround(parts, i);
    PartsAreFree(s, '_');
    SplitJoin(parts[..i], '_');
  }

  lemma {:induction false} JoinAround(parts: seq<string>, i: int)
    requires 0 < i < |parts| - 1
    ensures Join(parts, "_") == Join(parts[..i], "_") + "_" + parts[i] + "_" + Join(parts[i + 1..], "_")
  {
    assert parts == parts[..i] + ([parts[i]] + parts[i + 1..]);
    JoinConcat(parts[..i], [parts[i]] + parts[i + 1..], "_");
    JoinConcat([parts[i]], parts[i + 1..], "_");
    assert Join([parts[i]], "_") == parts[i];
  }

  /** Another state has the same text exactly when some other inner part of the text is a decimal numeral. */
  lemma {:induction false} AmbiguousExactly(f: FileState)
    ensures (exists g :: g != f && Signature(g) == Signature(f)) <==>
            (exists i :: i != |Split(f.name, '_')| && ReadsAsSize(Split(Signature(f), '_'), i))
  {
    var parts := Split(Signature(f), '_');
    SignatureParts(f);
    if g :| g != f && Signature(g) == Signature(f) {
      SignatureParts(g);
      if |Split(g.name, '_')| == |Split(f.name, '_')| {
        SignatureInjective(f, g);
      }
      assert parts[|Split(g.name, '_')|] == Decimal(g.size);
      assert ReadsAsSize(parts, |Split(g.name, '_')|);
    }
    if i :| i != |Split(f.name, '_')| && ReadsAsSize(parts, i) {
      ReadAtHasTheText(Signature(f), i);
      assert ReadAt(parts, i) != f;
    }
  }

  /** For instance, an underscore in the time can pass for the one after the size. */
  lemma {:induction false} UnderscoredTimesCollide()
    ensures var f, g := FileState("a", 1, "2_b"), FileState("a_1", 2, "b");
            f != g && Signature(f) == Signature(g) && Decode(Signature(f)) == Some(g)
  {
    var g := FileState("a_1", 2, "b");
    assert Decimal(1) == "1" && Decimal(2) == "2";
    DecodeSignature(g);
  }

  /** The version is the hash of some other state of the file. */
  ghost predicate OfAnotherState(hash: string -> Version, v: Version, after: FileState) {
    exists g: FileState :: g != after && '_' !in g.lastUpdated && v == hash(Signature(g))
  }

  lemma {:induction false} AnotherStateHashesApart(hash: string -> Version, v: Version, after: FileState)
    requires forall a, b :: hash(a) == hash(b) ==> a == b
    requires '_' !in after.lastUpdated && OfAnotherState(hash, v, after)
    ensures v != hash(Signature(after))
  {
    var g: FileState :| g != after && '_' !in g.lastUpdated && v == hash(Signature(g));
    DecodeSignature(g);
    DecodeSignature(after);
  }

  /** With a collision-free hash: a file in a state not synced before is never taken for synced, and once its row
      carries the new hash no attempt on any of its earlier states, of which the log keeps all, keeps it out of the
      pending query. */
  lemma {:induction false} ChangeForcesTransferAndStaging(hash: string -> Version, after: FileState, key: Key,
                                                          registry: map<Key, Version>, s3: map<Key, Version>,
                                                          attempts: seq<Attempt>, headSeen: bool)
    requires forall a, b :: hash(a) == hash(b) ==> a == b
    requires '_' !in after.lastUpdated && (key in registry ==> OfAnotherState(hash, registry[key], after))
    requires forall a :: a in attempts && a.key == key && a.success ==> OfAnotherState(hash, a.hash, after)
    ensures !AlreadySynced(registry, s3, Item(key, hash(Signature(after))), headSeen)
    ensures !MaybeNotPending(registry[key := hash(Signature(after))], attempts, key)
  {
    if key in registry {
      AnotherStateHashesApart(hash, registry[key], after);
    }
    forall a | a in attempts && a.key == key && a.success ensures a.hash != hash(Signature(after)) {
      AnotherStateHashesApart(hash, a.hash, after);
    }
  }
}
