/** The transaction commands as they act on the multi-version data. Each command
    handles its keys one by one, buffering changes, and writes the buffer as one
    batch only if nothing went wrong. */
module Commands {
  import opened Codec
  import opened Options
  import opened MvccModel
  import opened MvccTxns
  import opened KvIterator

  datatype MutationOp = OpPut | OpDel | OpRollback

  datatype Mutation = Mutation(op: MutationOp, key: Key, value: Value)

  datatype KeyError =
    | Locked(key: Key, lock: Lock)
    | Conflict(key: Key, startTs: U64, conflictTs: U64, primary: Key)
    | Abort

  datatype Response =
    | Ok
    | Errors(errors: seq<KeyError>)
    | KeyFailure(error: KeyError)
    | StatusLocked(ttl: U64)
    | StatusCommitted(commitTs: U64)
    | StatusRolledBack(expired: bool)

  /** `Resolve` is the part of `kv_resolve_lock` that runs under latches, on the keys
      collected before. */
  datatype Command =
    | Prewrite(mutations: seq<Mutation>, primary: Key, startTs: U64, ttl: U64)
    | Commit(keys: seq<Key>, startTs: U64, commitTs: U64)
    | BatchRollback(keys: seq<Key>, startTs: U64)
    | CheckStatus(primaryKey: Key, startTs: U64, currentTs: U64)
    | Resolve(keys: seq<Key>, startTs: U64, commitTs: U64)

  /** One turn of a command's loop: everything it reads belongs to one key. */
  datatype Item =
    | PrewriteKey(mutation: Mutation)
    | CommitCheck(k: Key)
    | CommitKey(k: Key)
    | RollbackKey(k: Key)
    | StatusKey(k: Key)
    | ResolveKey(k: Key)

  /** What a command has gathered: buffered changes, errors, and whether it has
      already answered without writing. */
  datatype Acc = Acc(ops: seq<Op>, errors: seq<KeyError>, reply: Response, stopped: bool)

  const EMPTY := Acc([], [], Ok, false)

  function KeyOf(item: Item): Key {
    match item
    case PrewriteKey(m) => m.key
    case CommitCheck(k) => k
    case CommitKey(k) => k
    case RollbackKey(k) => k
    case StatusKey(k) => k
    case ResolveKey(k) => k
  }

  function Items(cmd: Command): seq<Item> {
    match cmd
    case Prewrite(ms, _, _, _) => seq(|ms|, i requires 0 <= i < |ms| => PrewriteKey(ms[i]))
    case Commit(ks, _, _) =>
      seq(|ks|, i requires 0 <= i < |ks| => CommitCheck(ks[i]))
        + seq(|ks|, i requires 0 <= i < |ks| => CommitKey(ks[i]))
    case BatchRollback(ks, _) => seq(|ks|, i requires 0 <= i < |ks| => RollbackKey(ks[i]))
    case CheckStatus(k, _, _) => [StatusKey(k)]
    case Resolve(ks, _, _) => seq(|ks|, i requires 0 <= i < |ks| => ResolveKey(ks[i]))
  }

  /** The keys a command takes latches for. */
  function Keys(cmd: Command): seq<Key> {
    match cmd
    case Prewrite(ms, _, _, _) => seq(|ms|, i requires 0 <= i < |ms| => ms[i].key)
    case Commit(ks, _, _) => ks
    case BatchRollback(ks, _) => ks
    case CheckStatus(k, _, _) => [k]
    case Resolve(ks, _, _) => ks
  }

  function RollbackRecord(ts: U64): Write {
    Write(ts, Rollback)
  }

  // ---- One turn of each loop ----

  function PrewriteStep(acc: Acc, m: Mutation, primary: Key, s: U64, ttl: U64, db: Db): Acc {
    if LockedByOther(db, m.key, s) then acc.(errors := acc.errors + [Locked(m.key, db.locks[m.key])])
    else
      var c := Latest(db.writes, m.key, s);
      if c.Some? && c.value > s then acc.(errors := acc.errors + [Conflict(m.key, s, c.value, primary)])
      else
        match m.op
        case OpPut =>
          acc.(ops := acc.ops + [PutValue(m.key, s, m.value)] + [PutLock(m.key, Lock(primary, s, ttl, Put))])
        case OpDel => acc.(ops := acc.ops + [DeleteValue(m.key, s)] + [PutLock(m.key, Lock(primary, s, ttl, Delete))])
        case OpRollback => acc.(errors := acc.errors + [Abort])
  }

  function CommitCheckStep(acc: Acc, k: Key, s: U64, c: U64, db: Db): Acc {
    if k in db.locks then
      if db.locks[k].ts != s then acc.(stopped := true, reply := KeyFailure(Locked(k, db.locks[k]))) else acc
    else if CurrentWriteOf(db, k, s).Some? && s == c then acc
    else acc.(stopped := true, reply := KeyFailure(Abort))
  }

  function CommitKeyStep(acc: Acc, k: Key, s: U64, c: U64, db: Db): Acc {
    if LockedBy(db, k, s) then
      acc.(ops := acc.ops + [PutWrite(k, c, Write(s, db.locks[k].kind))] + [DeleteLock(k)])
    else acc
  }

  function RollbackKeyStep(acc: Acc, k: Key, s: U64, db: Db): Acc {
    if LockedByOther(db, k, s) then acc.(stopped := true, reply := KeyFailure(Locked(k, db.locks[k])))
    else
      // A record found here was committed at s itself, never later: no abort.
      var freed := if k in db.locks then acc.ops + [DeleteLock(k)] else acc.ops;
      acc.(ops := freed + [PutWrite(k, s, RollbackRecord(s))] + [DeleteValue(k, s)])
  }

  /** The lock has outlived its time to live; 64-bit addition wraps around. */
  predicate Expired(lock: Lock, now: U64) {
    PhysicalTime(now) > (PhysicalTime(lock.ts) + lock.ttl) % (U64_MAX + 1)
  }

  function StatusStep(acc: Acc, k: Key, s: U64, now: U64, db: Db): Acc {
    if k in db.locks then
      var lock := db.locks[k];
      if lock.ts != s || !Expired(lock, now) then acc.(stopped := true, reply := StatusLocked(lock.ttl))
      else
        acc.(ops := acc.ops + [DeleteLock(k)] + [PutWrite(k, s, RollbackRecord(s))] + [DeleteValue(k, s)],
        reply := StatusRolledBack(true))
    else if CurrentWriteOf(db, k, s).Some? && s > 0 then acc.(stopped := true, reply := StatusCommitted(s))
    else acc.(ops := acc.ops + [PutWrite(k, s, RollbackRecord(s))], reply := StatusRolledBack(false))
  }

  function ResolveStep(acc: Acc, k: Key, s: U64, c: U64, db: Db): Acc {
    if !LockedBy(db, k, s) then acc
    else if c > 0 then
      acc.(ops := acc.ops + [PutWrite(k, c, Write(s, db.locks[k].kind))] + [DeleteLock(k)])
    else
      acc.(ops := acc.ops + [DeleteLock(k)] + [PutWrite(k, s, RollbackRecord(s))] + [DeleteValue(k, s)])
  }

  predicate Fits(cmd: Command, item: Item) {
    match item
    case PrewriteKey(_) => cmd.Prewrite?
    case CommitCheck(_) => cmd.Commit?
    case CommitKey(_) => cmd.Commit?
    case RollbackKey(_) => cmd.BatchRollback?
    case StatusKey(_) => cmd.CheckStatus?
    case ResolveKey(_) => cmd.Resolve?
  }

  function Step(cmd: Command, acc: Acc, item: Item, db: Db): Acc
    requires Fits(cmd, item)
  {
    if acc.stopped then acc
    else
      match item
      case PrewriteKey(m) => PrewriteStep(acc, m, cmd.primary, cmd.startTs, cmd.ttl, db)
      case CommitCheck(k) => CommitCheckStep(acc, k, cmd.startTs, cmd.commitTs, db)
      case CommitKey(k) => CommitKeyStep(acc, k, cmd.startTs, cmd.commitTs, db)
      case RollbackKey(k) => RollbackKeyStep(acc, k, cmd.startTs, db)
      case StatusKey(k) => StatusStep(acc, k, cmd.startTs, cmd.currentTs, db)
      case ResolveKey(k) => ResolveStep(acc, k, cmd.startTs, cmd.commitTs, db)
  }

  /** The command after its first `n` turns, all reading the same data. */
  function Gather(cmd: Command, db: Db, n: nat): Acc
    requires n <= |Items(cmd)|
  {
    if n == 0 then EMPTY else Step(cmd, Gather(cmd, db, n - 1), Items(cmd)[n - 1], db)
  }

  predicate Writes(acc: Acc) {
    !acc.stopped && acc.errors == []
  }

  function Reply(acc: Acc): Response {
    if acc.stopped || acc.errors == [] then acc.reply else Errors(acc.errors)
  }

  function Final(cmd: Command, db: Db): Acc {
    Gather(cmd, db, |Items(cmd)|)
  }

  /** The data after the command, run alone. */
  function After(cmd: Command, db: Db): Db {
    if Writes(Final(cmd, db)) then ApplyAll(db, Final(cmd, db).ops) else db
  }

  function ReplyTo(cmd: Command, db: Db): Response {
    Reply(Final(cmd, db))
  }

  /** `kv_resolve_lock`: find the locks of the transaction, then resolve them. */
  function ResolveLock(db: Db, s: U64, c: U64): Command {
    Resolve(LockedKeys(db, s), s, c)
  }

  function LockedKeys(db: Db, s: U64): (ks: seq<Key>)
    ensures forall k :: k in ks <==> LockedBy(db, k, s)
  {
    SortedKeys(set k | k in db.locks && db.locks[k].ts == s)
  }
}
