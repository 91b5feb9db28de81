/** Multi-version data as the transaction layer means it: locks by key, and
    write records and values by key and timestamp. */
module MvccModel {
  import opened Options
  import opened ByteStrings
  import opened Codec

  type Key = Bytes
  type Value = Bytes
  type Version = (Key, U64)

  datatype WriteKind = Put | Delete | Rollback

  datatype Write = Write(startTs: U64, kind: WriteKind)

  datatype Lock = Lock(primary: Bytes, ts: U64, ttl: U64, kind: WriteKind)

  /** The three column families; `writes` is keyed by commit timestamp and
      `values` by start timestamp. */
  datatype Db = Db(locks: map<Key, Lock>, writes: map<Version, Write>, values: map<Version, Value>)

  /** One buffered change of a transaction. */
  datatype Op =
    | PutLock(key: Key, lock: Lock)
    | DeleteLock(key: Key)
    | PutWrite(key: Key, ts: U64, write: Write)
    | PutValue(key: Key, ts: U64, value: Value)
    | DeleteValue(key: Key, ts: U64)

  function Apply(db: Db, op: Op): Db {
    match op
    case PutLock(k, l) => db.(locks := db.locks[k := l])
    case DeleteLock(k) => db.(locks := db.locks - {k})
    case PutWrite(k, t, w) => db.(writes := db.writes[(k, t) := w])
    case PutValue(k, t, v) => db.(values := db.values[(k, t) := v])
    case DeleteValue(k, t) => db.(values := db.values - {(k, t)})
  }

  /** A batch, applied first to last as one atomic write. */
  function ApplyAll(db: Db, ops: seq<Op>): Db {
    if |ops| == 0 then db else Apply(ApplyAll(db, ops[..|ops| - 1]), ops[|ops| - 1])
  }

  /** The newest commit timestamp of `k` not above `t`, found by counting down. */
  function Latest(writes: map<Version, Write>, k: Key, t: U64): (c: Option<U64>)
    ensures c.Some? ==> IsLatest(writes, k, t, c.value)
    ensures c.None? ==> forall c' :: 0 <= c' <= t ==> (k, c') !in writes
    decreases t
  {
    if (k, t) in writes then Some(t)
    else if t == 0 then None
    else Latest(writes, k, t - 1)
  }

  ghost predicate IsLatest(writes: map<Version, Write>, k: Key, t: U64, c: U64) {
    c <= t && (k, c) in writes && forall c' :: c < c' <= t ==> (k, c') !in writes
  }

  function Lookup(values: map<Version, Value>, v: Version): Option<Value> {
    if v in values then Some(values[v]) else None
  }

  /** The value a reader at timestamp `t` sees for `k` once locks are out of the way. */
  function Read(db: Db, k: Key, t: U64): Option<Value> {
    match Latest(db.writes, k, t)
    case None => None
    case Some(c) =>
      var w := db.writes[(k, c)];
      if w.kind.Put? then Lookup(db.values, (k, w.startTs)) else None
  }

  predicate LockedByOther(db: Db, k: Key, ts: U64) {
    k in db.locks && db.locks[k].ts != ts
  }

  predicate LockedBy(db: Db, k: Key, ts: U64) {
    k in db.locks && db.locks[k].ts == ts
  }

  datatype GetAnswer = Answer(value: Option<Value>) | LockError(lock: Lock)

  /** What `kv_get` reports for `k` at `t`. */
  function Get(db: Db, k: Key, t: U64): GetAnswer {
    if LockedByOther(db, k, t) then LockError(db.locks[k]) else Answer(Read(db, k, t))
  }

  /** A read depends only on the records of its key up to its timestamp, and on
      the value the newest of them points at. */
  lemma {:induction false} ReadDependsOn(db: Db, db': Db, k: Key, t: U64)
    requires forall c :: 0 <= c <= t ==> ((k, c) in db.writes <==> (k, c) in db'.writes)
    requires forall c :: 0 <= c <= t && (k, c) in db.writes ==> db.writes[(k, c)] == db'.writes[(k, c)]
    requires var c := Latest(db.writes, k, t);
             c.Some? && db.writes[(k, c.value)].kind.Put? ==>
               Lookup(db.values, (k, db.writes[(k, c.value)].startTs)) ==
               Lookup(db'.values, (k, db.writes[(k, c.value)].startTs))
    ensures Latest(db.writes, k, t) == Latest(db'.writes, k, t)
    ensures Read(db, k, t) == Read(db', k, t)
  {
    if Latest(db.writes, k, t).Some? {
      LatestUnique(db'.writes, k, t, Latest(db.writes, k, t).value);
    }
  }

  /** `Latest` is pinned down by what it promises. */
  lemma {:induction false} LatestUnique(writes: map<Version, Write>, k: Key, t: U64, c: U64)
    requires IsLatest(writes, k, t, c)
    ensures Latest(writes, k, t) == Some(c)
  {
  }
}
