/** The landing and staging protocol: one producer and one consumer over S3, the landing registry, the attempt log and
    the lakehouse tables, interleaved step by step, with a failure possible between any two steps.  A content version
    stands for the fingerprint of a remote file: versions of one file only grow and never recur. */
module Protocol {
  import opened Prelude

  type Key = string
  type Version = nat

  /** A file as it was listed, or as the pending query returned it: its S3 key and the hash to expect. */
  datatype Item = Item(key: Key, hash: Version)

  datatype Attempt = Attempt(key: Key, hash: Version, at: int, success: bool)

  /** `sync_active_domains` inside one mapping. */
  datatype Producer =
    | Idle
    | Listed(todo: seq<Item>)
    | Fetched(item: Item, content: Version, todo: seq<Item>)
    | Uploaded(item: Item, todo: seq<Item>)

  /** The staging job. */
  datatype Consumer =
    | Resting
    | Between(groups: seq<seq<Item>>)
    | Loading(batch: seq<Item>, at: int, read: map<Key, Version>, groups: seq<seq<Item>>)
    | Merged(batch: seq<Item>, at: int, groups: seq<seq<Item>>)
    | Failing(batch: seq<Item>, at: int, groups: seq<seq<Item>>)

  /** `table` is, per file, the content version its contract table last merged. */
  datatype State = State(remote: map<Key, Version>, s3: map<Key, Version>, registry: map<Key, Version>,
                         attempts: seq<Attempt>, table: map<Key, Version>, producer: Producer, consumer: Consumer)

  datatype Step =
    | RemoteChange(key: Key, version: Version)
    | ListFiles(files: seq<Item>)
    | Skip(hasId: bool)
    | Download(headSeen: bool)
    | Upload
    | Register
    | ProducerStops
    | Query(groups: seq<seq<Item>>)
    | Begin(now: int)
    | Read(key: Key)
    | Merge
    | CommitSuccess
    | SuccessLandsButRaises
    | DomainFails
    | CommitFailed
    | ConsumerStops

  // ---- The pending query ----------------------------------------------------------------------

  /** `a` may be row number one of its key: no attempt on the key is later. Equal times leave the choice open. */
  predicate IsLatest(attempts: seq<Attempt>, a: Attempt) {
    a in attempts && forall b :: b in attempts && b.key == a.key ==> b.at <= a.at
  }

  predicate NeverAttempted(attempts: seq<Attempt>, k: Key) {
    forall a :: a in attempts ==> a.key != k
  }

  /** The anti-join may leave this landing row out. */
  predicate MaybeNotPending(registry: map<Key, Version>, attempts: seq<Attempt>, k: Key)
    requires k in registry
  {
    exists a :: a in attempts && a.key == k && IsLatest(attempts, a) && a.success && a.hash == registry[k]
  }

  /** The anti-join may return this landing row. */
  predicate MaybePending(registry: map<Key, Version>, attempts: seq<Attempt>, k: Key)
    requires k in registry
  {
    NeverAttempted(attempts, k) ||
    exists a :: a in attempts && a.key == k && IsLatest(attempts, a) && (!a.success || a.hash != registry[k])
  }

  // ---- Steps ----------------------------------------------------------------------------------

  /** `check_idempotency`; the head request may fail to see an object that exists. */
  predicate AlreadySynced(registry: map<Key, Version>, s3: map<Key, Version>, item: Item, headSeen: bool) {
    item.key in registry && registry[item.key] == item.hash && item.key in s3 && headSeen
  }

  function Log(batch: seq<Item>, at: int, success: bool): (log: seq<Attempt>)
    ensures |log| == |batch|
  {
    seq(|batch|, i requires 0 <= i < |batch| => Attempt(batch[i].key, batch[i].hash, at, success))
  }

  function Keys(batch: seq<Item>): set<Key> {
    set x | x in batch :: x.key
  }

  /** The effect of one step, None where the step is not possible. A listing is read page by page, so each of its items
      has been current at some moment, though perhaps not all at the same one. */
  function Next(s: State, e: Step): Option<State> {
    match e
    case RemoteChange(k, v) =>
      if k in s.remote ==> v > s.remote[k] then Some(s.(remote := s.remote[k := v])) else None
    case ListFiles(files) =>
      if s.producer.Idle? && (forall x :: x in files ==> x.key in s.remote && x.hash <= s.remote[x.key])
      then Some(s.(producer := Listed(files))) else None
    case Skip(hasId) =>
      if s.producer.Listed? && s.producer.todo != [] &&
         (!hasId || AlreadySynced(s.registry, s.s3, s.producer.todo[0], true))
      then Some(s.(producer := Listed(s.producer.todo[1..]))) else None
    case Download(headSeen) =>
      if s.producer.Listed? && s.producer.todo != [] && s.producer.todo[0].key in s.remote
         && !AlreadySynced(s.registry, s.s3, s.producer.todo[0], headSeen)
      then Some(s.(producer := Fetched(s.producer.todo[0], s.remote[s.producer.todo[0].key], s.producer.todo[1..])))
      else None
    case Upload =>
      if s.producer.Fetched?
      then Some(s.(s3 := s.s3[s.producer.item.key := s.producer.content],
                   producer := Uploaded(s.producer.item, s.producer.todo)))
      else None
    case Register =>
      if s.producer.Uploaded?
      then Some(s.(registry := s.registry[s.producer.item.key := s.producer.item.hash],
                   producer := Listed(s.producer.todo)))
      else None
    case ProducerStops => Some(s.(producer := Idle))
    case Query(groups) =>
      if s.consumer.Resting? && (forall g, x :: g in groups && x in g ==>
           x.key in s.registry && x.hash == s.registry[x.key] && MaybePending(s.registry, s.attempts, x.key))
      then Some(s.(consumer := Between(groups))) else None
    case Begin(now) =>
      if s.consumer.Between? && s.consumer.groups != []
      then Some(s.(consumer := Loading(s.consumer.groups[0], now, map[], s.consumer.groups[1..]))) else None
    case Read(k) =>
      if s.consumer.Loading? && k in s.s3 && k in Keys(s.consumer.batch)
      then Some(s.(consumer := s.consumer.(read := s.consumer.read[k := s.s3[k]]))) else None
    case Merge =>
      if s.consumer.Loading? && Keys(s.consumer.batch) <= s.consumer.read.Keys
      then Some(s.(table := s.table + s.consumer.read,
                   consumer := Merged(s.consumer.batch, s.consumer.at, s.consumer.groups))) else None
    case CommitSuccess =>
      if s.consumer.Merged?
      then Some(s.(attempts := s.attempts + Log(s.consumer.batch, s.consumer.at, true),
                   consumer := Between(s.consumer.groups))) else None
    case SuccessLandsButRaises =>
      if s.consumer.Merged?
      then Some(s.(attempts := s.attempts + Log(s.consumer.batch, s.consumer.at, true),
                   consumer := Failing(s.consumer.batch, s.consumer.at, s.consumer.groups))) else None
    case DomainFails =>
      if s.consumer.Loading? || s.consumer.Merged?
      then Some(s.(consumer := Failing(s.consumer.batch, s.consumer.at, s.consumer.groups))) else None
    case CommitFailed =>
      if s.consumer.Failing?
      then Some(s.(attempts := s.attempts + Log(s.consumer.batch, s.consumer.at, false),
                   consumer := Between(s.consumer.groups))) else None
    case ConsumerStops => Some(s.(consumer := Resting))
  }

  function Start(remote: map<Key, Version>): State {
    State(remote, map[], map[], [], map[], Idle, Resting)
  }

  function Run(s: State, steps: seq<Step>): Option<State>
    decreases |steps|
  {
    if steps == [] then Some(s)
    else
      var next := Next(s, steps[0]);
      if next.Some? then Run(next.value, steps[1..]) else None
  }

  // ---- The invariant --------------------------------------------------------------------------

  /** `m` holds the key at the version or a newer one. */
  predicate AtLeast(m: map<Key, Version>, k: Key, v: Version) {
    k in m && v <= m[k]
  }

  predicate NoNewer(a: map<Key, Version>, b: map<Key, Version>) {
    forall k :: k in a ==> AtLeast(b, k, a[k])
  }

  /** Every listed item has been current at the remote. */
  predicate TodoOk(s: State, todo: seq<Item>) {
    forall x :: x in todo ==> AtLeast(s.remote, x.key, x.hash)
  }

  predicate ProducerOk(s: State) {
    match s.producer
    case Idle => true
    case Listed(todo) => TodoOk(s, todo)
    case Fetched(item, content, todo) =>
      && TodoOk(s, todo)
      && item.hash <= content && AtLeast(s.remote, item.key, content)
      && (item.key in s.s3 ==> s.s3[item.key] <= content)
    case Uploaded(item, todo) => TodoOk(s, todo) && AtLeast(s.s3, item.key, item.hash)
  }

  predicate BatchStored(s: State, batch: seq<Item>) {
    forall x :: x in batch ==> AtLeast(s.s3, x.key, x.hash)
  }

  predicate GroupsStored(s: State, groups: seq<seq<Item>>) {
    forall g :: g in groups ==> BatchStored(s, g)
  }

  predicate ConsumerOk(s: State) {
    match s.consumer
    case Resting => true
    case Between(groups) => GroupsStored(s, groups)
    case Loading(batch, at, read, groups) =>
      && GroupsStored(s, groups) && BatchStored(s, batch)
      && NoNewer(read, s.s3)
      && (forall x :: x in batch && x.key in read ==> x.hash <= read[x.key])
      && (forall k :: k in read && k in s.table ==> s.table[k] <= read[k])
    case Merged(batch, at, groups) =>
      GroupsStored(s, groups) && BatchStored(s, batch) && forall x :: x in batch ==> AtLeast(s.table, x.key, x.hash)
    case Failing(batch, at, groups) => GroupsStored(s, groups)
  }

  predicate Inv(s: State) {
    && NoNewer(s.s3, s.remote)
    && NoNewer(s.registry, s.s3)
    && NoNewer(s.table, s.s3)
    && (forall a :: a in s.attempts && a.success ==> AtLeast(s.table, a.key, a.hash))
    && ProducerOk(s) && ConsumerOk(s)
  }

  lemma {:induction false} LogMembers(batch: seq<Item>, at: int, success: bool)
    ensures forall a :: a in Log(batch, at, success) ==>
              a.at == at && a.success == success && exists x :: x in batch && x.key == a.key && x.hash == a.hash
  {
    var log := Log(batch, at, success);
    forall a | a in log
      ensures a.at == at && a.success == success && exists x :: x in batch && x.key == a.key && x.hash == a.hash
    {
      var i :| 0 <= i < |log| && log[i] == a;
      assert batch[i] in batch;
    }
  }

  lemma {:induction false} ProducerStepKeepsInv(s: State, e: Step)
    requires Inv(s) && Next(s, e).Some?
    requires e.RemoteChange? || e.ListFiles? || e.Skip? || e.Download? || e.Upload? || e.Register? || e.ProducerStops?
    ensures Inv(Next(s, e).value)
  {
    match e {
      case Upload =>
        var s' := Next(s, e).value;
        assert forall k :: k in s.s3 ==> AtLeast(s'.s3, k, s.s3[k]);
        assert NoNewer(s'.s3, s'.remote) && NoNewer(s'.registry, s'.s3) && NoNewer(s'.table, s'.s3);
        assert ProducerOk(s');
        StorageGrows(s, s');
      case RemoteChange(k, v) =>
        assert forall j :: j in s.remote ==> AtLeast(Next(s, e).value.remote, j, s.remote[j]);
      case ListFiles(files) =>
      case Skip(_) =>
        assert forall x :: x in s.producer.todo[1..] ==> x in s.producer.todo;
      case Download(_) =>
        assert s.producer.todo[0] in s.producer.todo && forall x :: x in s.producer.todo[1..] ==> x in s.producer.todo;
      case Register =>
      case ProducerStops =>
    }
  }

  /** Newer objects in S3 never hurt the consumer. */
  lemma {:induction false} StorageGrows(s: State, s': State)
    requires ConsumerOk(s) && s'.consumer == s.consumer && s'.table == s.table
    requires forall k :: k in s.s3 ==> AtLeast(s'.s3, k, s.s3[k])
    ensures ConsumerOk(s')
  {
    assert forall batch :: BatchStored(s, batch) ==> BatchStored(s', batch);
  }

  lemma {:induction false} PlanningKeepsInv(s: State, e: Step)
    requires Inv(s) && Next(s, e).Some? && (e.Query? || e.Begin?)
    ensures Inv(Next(s, e).value)
  {
    match e {
      case Query(groups) =>
        forall g | g in groups ensures BatchStored(s, g) {
          forall x | x in g ensures AtLeast(s.s3, x.key, x.hash) {}
        }
      case Begin(now) =>
        var groups := s.consumer.groups;
        assert groups[0] in groups && forall g :: g in groups[1..] ==> g in groups;
    }
  }

  lemma {:induction false} LoadingKeepsInv(s: State, e: Step)
    requires Inv(s) && Next(s, e).Some? && (e.Read? || e.Merge?)
    ensures Inv(Next(s, e).value)
  {
    if e.Merge? {
      assert forall x :: x in s.consumer.batch ==> x.key in Keys(s.consumer.batch);
    }
  }

  lemma {:induction false} LoggingKeepsInv(s: State, e: Step)
    requires Inv(s) && Next(s, e).Some?
    requires e.CommitSuccess? || e.SuccessLandsButRaises? || e.DomainFails? || e.CommitFailed? || e.ConsumerStops?
    ensures Inv(Next(s, e).value)
  {
    if e.CommitSuccess? || e.SuccessLandsButRaises? || e.CommitFailed? {
      LogMembers(s.consumer.batch, s.consumer.at, !e.CommitFailed?);
    }
  }

  lemma {:induction false} StepKeepsInv(s: State, e: Step)
    requires Inv(s) && Next(s, e).Some?
    ensures Inv(Next(s, e).value)
  {
    if e.RemoteChange? || e.ListFiles? || e.Skip? || e.Download? || e.Upload? || e.Register? || e.ProducerStops? {
      ProducerStepKeepsInv(s, e);
    } else if e.Query? || e.Begin? {
      PlanningKeepsInv(s, e);
    } else if e.Read? || e.Merge? {
      LoadingKeepsInv(s, e);
    } else {
      LoggingKeepsInv(s, e);
    }
  }

  lemma {:induction false} RunKeepsInv(s: State, steps: seq<Step>)
    requires Inv(s) && Run(s, steps).Some?
    ensures Inv(Run(s, steps).value)
    decreases |steps|
  {
    if steps != [] {
      StepKeepsInv(s, steps[0]);
      RunKeepsInv(Next(s, steps[0]).value, steps[1..]);
    }
  }

  lemma {:induction false} RunCons(s: State, e: Step, rest: seq<Step>)
    ensures Run(s, [e] + rest) == if Next(s, e).Some? then Run(Next(s, e).value, rest) else None
  {
    assert ([e] + rest)[1..] == rest;
  }

  lemma {:induction false} RunConcat(s: State, a: seq<Step>, b: seq<Step>)
    ensures Run(s, a + b) == if Run(s, a).Some? then Run(Run(s, a).value, b) else None
    decreases |a|
  {
    if a == [] {
      assert a + b == b;
    } else {
      assert a + b == [a[0]] + (a[1..] + b) && a == [a[0]] + a[1..];
      RunCons(s, a[0], a[1..] + b);
      RunCons(s, a[0], a[1..]);
      if Next(s, a[0]).Some? {
        RunConcat(Next(s, a[0]).value, a[1..], b);
      }
    }
  }

  // ---- Main theorems --------------------------------------------------------------------------

  /** In every reachable state a landing row's version, or a newer one, is in S3. */
  lemma {:induction false} RegistryNeverAhead(remote: map<Key, Version>, steps: seq<Step>, k: Key)
    requires Run(Start(remote), steps).Some?
    ensures var s := Run(Start(remote), steps).value;
            k in s.registry ==> AtLeast(s.s3, k, s.registry[k])
  {
    RunKeepsInv(Start(remote), steps);
  }

  /** In every reachable state a landing row the query could leave out has been merged, at its version or a newer
      one. */
  lemma {:induction false} NoRegisteredVersionLost(remote: map<Key, Version>, steps: seq<Step>, k: Key)
    requires Run(Start(remote), steps).Some?
    ensures var s := Run(Start(remote), steps).value;
            k in s.registry && MaybeNotPending(s.registry, s.attempts, k) ==> AtLeast(s.table, k, s.registry[k])
  {
    RunKeepsInv(Start(remote), steps);
  }

  /** Left out and returned are the only possibilities, and only equal attempt times leave both open. */
  lemma {:induction false} PendingOrNot(registry: map<Key, Version>, attempts: seq<Attempt>, k: Key)
    requires k in registry
    ensures MaybePending(registry, attempts, k) || MaybeNotPending(registry, attempts, k)
    ensures MaybePending(registry, attempts, k) && MaybeNotPending(registry, attempts, k) ==>
              exists a, b :: a in attempts && b in attempts && a.key == k && b.key == k && a != b && a.at == b.at
  {
    if !NeverAttempted(attempts, k) {
      var a := SomeLatest(attempts, k);
      assert a in attempts && a.key == k && IsLatest(attempts, a);
    }
    if MaybePending(registry, attempts, k) && MaybeNotPending(registry, attempts, k) {
      var a :| a in attempts && a.key == k && IsLatest(attempts, a) && a.success && a.hash == registry[k];
      var b :| b in attempts && b.key == k && IsLatest(attempts, b) && (!b.success || b.hash != registry[k]);
      assert a != b && a.at == b.at;
    }
  }

  lemma {:induction false} SomeLatest(attempts: seq<Attempt>, k: Key) returns (a: Attempt)
    requires !NeverAttempted(attempts, k)
    ensures a in attempts && a.key == k && IsLatest(attempts, a)
  {
    var first, rest := attempts[0], attempts[1..];
    assert attempts == [first] + rest;
    if NeverAttempted(rest, k) {
      a := first;
    } else {
      a := SomeLatest(rest, k);
      if first.key == k && first.at > a.at {
        a := first;
      }
    }
  }

  lemma {:induction false} StepNeverRegresses(s: State, e: Step, k: Key)
    requires Inv(s) && Next(s, e).Some? && k in s.table
    ensures AtLeast(Next(s, e).value.table, k, s.table[k])
  {
  }

  /** The lakehouse never goes back to an older version of a file, whatever the interleaving. */
  lemma {:induction false} TableNeverRegresses(s: State, steps: seq<Step>, k: Key)
    requires Inv(s) && Run(s, steps).Some? && k in s.table
    ensures AtLeast(Run(s, steps).value.table, k, s.table[k])
    decreases |steps|
  {
    if steps != [] {
      StepKeepsInv(s, steps[0]);
      StepNeverRegresses(s, steps[0], k);
      TableNeverRegresses(Next(s, steps[0]).value, steps[1..], k);
    }
  }
}
