/** The transaction commands as the server runs them: loops over the keys that read
    through a transaction object, then one batch. */
module TransactionServers {
  import opened Codec
  import opened ByteStrings
  import opened Options
  import opened MvccModel
  import opened KvIterator
  import opened MvccTxns
  import opened Commands
  import opened CommandLaws
  import opened Latching
  import opened Scanners
  import opened TxnStatus
  import opened TxnRuns

  datatype ScanPair = Pair(key: Key, value: Value) | PairError(errorKey: Key, lock: Lock)

  class TransactionServer {
    const storage: Storage
    const latches: Latches

    constructor (storage: Storage, latches: Latches)
      ensures this.storage == storage && this.latches == latches
    {
      this.storage, this.latches := storage, latches;
    }

    /** Answers if and only if no other transaction holds a lock on the key; otherwise it
        reports that lock. */
    method KvGet(key: Key, version: U64) returns (answer: GetAnswer)
      requires storage.Valid()
      ensures answer == Get(storage.db, key, version)
      ensures answer.Answer? <==> (key in storage.db.locks ==> storage.db.locks[key].ts == version)
      ensures answer.LockError? ==> answer.lock == storage.db.locks[key]
    {
      var txn := new MvccTxn(storage, version);
      var lock := txn.GetLock(key);
      if lock.Some? && lock.value.ts != version { return LockError(lock.value); }
      answer := txn.GetValue(key);
    }

    // ---- Taking and letting go of latches around a command ----

    /** The wait loop has ended with all latches free, so taking them succeeds. */
    method Latch(keys: seq<Key>) returns (ghost owner: Notify)
      requires AllFree(latches.latchMap, keys)
      modifies latches
      ensures latches.latchMap == Taken(old(latches.latchMap), keys, owner)
    {
      owner := latches.nextNotify;
      var busy := latches.AcquireLatches(keys);
    }

    method Unlatch(keys: seq<Key>, ghost owner: Notify, ghost before: map<Key, Notify>)
      requires AllFree(before, keys) && latches.latchMap == Taken(before, keys, owner)
      modifies latches
      ensures latches.latchMap == before
    {
      ReleaseUndoesTake(before, keys, owner);
      var woken := latches.ReleaseLatches(keys);
    }

    method KvPrewrite(mutations: seq<Mutation>, primary: Key, startVersion: U64, ttl: U64) returns (reply: Response)
      requires storage.Valid() && AllFree(latches.latchMap, Keys(Prewrite(mutations, primary, startVersion, ttl)))
      modifies storage, latches
      ensures storage.Valid() && latches.latchMap == old(latches.latchMap)
      ensures var cmd := Prewrite(mutations, primary, startVersion, ttl);
              storage.db == After(cmd, old(storage.db)) && reply == ReplyTo(cmd, old(storage.db))
    {
      var keys := seq(|mutations|, i requires 0 <= i < |mutations| => mutations[i].key);
      ghost var owner := Latch(keys);
      reply := PrewriteLatched(mutations, primary, startVersion, ttl);
      Unlatch(keys, owner, old(latches.latchMap));
    }

    method KvCommit(keys: seq<Key>, startVersion: U64, commitVersion: U64) returns (reply: Response)
      requires storage.Valid() && AllFree(latches.latchMap, keys)
      modifies storage, latches
      ensures storage.Valid() && latches.latchMap == old(latches.latchMap)
      ensures var cmd := Commit(keys, startVersion, commitVersion);
              storage.db == After(cmd, old(storage.db)) && reply == ReplyTo(cmd, old(storage.db))
    {
      ghost var owner := Latch(keys);
      reply := CommitLatched(keys, startVersion, commitVersion);
      Unlatch(keys, owner, old(latches.latchMap));
    }

    method KvBatchRollback(keys: seq<Key>, startVersion: U64) returns (reply: Response)
      requires storage.Valid() && AllFree(latches.latchMap, keys)
      modifies storage, latches
      ensures storage.Valid() && latches.latchMap == old(latches.latchMap)
      ensures var cmd := BatchRollback(keys, startVersion);
              storage.db == After(cmd, old(storage.db)) && reply == ReplyTo(cmd, old(storage.db))
    {
      ghost var owner := Latch(keys);
      reply := RollbackLatched(keys, startVersion);
      Unlatch(keys, owner, old(latches.latchMap));
    }

    method KvCheckTxnStatus(primaryKey: Key, lockTs: U64, currentTs: U64) returns (reply: Response)
      requires storage.Valid() && AllFree(latches.latchMap, [primaryKey])
      modifies storage, latches
      ensures storage.Valid() && latches.latchMap == old(latches.latchMap)
      ensures var cmd := CheckStatus(primaryKey, lockTs, currentTs);
              storage.db == After(cmd, old(storage.db)) && reply == ReplyTo(cmd, old(storage.db))
      ensures LockedBy(old(storage.db), primaryKey, lockTs) ==>
                (reply == StatusRolledBack(true) <==>
                 currentTs / TICKS > Deadline(lockTs, old(storage.db).locks[primaryKey].ttl))
    {
      ghost var db := storage.db;
      if primaryKey in db.locks { LockedStatus(db, primaryKey, lockTs, currentTs); }
      ghost var owner := Latch([primaryKey]);
      reply := StatusLatched(primaryKey, lockTs, currentTs);
      Unlatch([primaryKey], owner, old(latches.latchMap));
    }

    /** Finds the locks of a transaction and commits or rolls back all of them. */
    method KvResolveLock(startVersion: U64, commitVersion: U64) returns (reply: Response)
      requires storage.Valid() && AllFree(latches.latchMap, LockedKeys(storage.db, startVersion))
      modifies storage, latches
      ensures storage.Valid() && latches.latchMap == old(latches.latchMap)
      ensures var cmd := ResolveLock(old(storage.db), startVersion, commitVersion);
              storage.db == After(cmd, old(storage.db)) && reply == ReplyTo(cmd, old(storage.db))
    {
      var keys := LocksOf(startVersion);
      if |keys| == 0 {
        assert Final(Resolve(keys, startVersion, commitVersion), storage.db) == EMPTY
               && ApplyAll(storage.db, []) == storage.db;
        return Ok;
      }
      ghost var owner := Latch(keys);
      reply := ResolveLatched(keys, startVersion, commitVersion);
      Unlatch(keys, owner, old(latches.latchMap));
    }

    // ---- The commands while their latches are held ----

    /** The one batch of a command that has gathered all its changes. */
    method WriteBuffer(txn: MvccTxn, ghost cmd: Command)
      requires storage.Valid() && txn.Valid()
      requires Writes(Final(cmd, storage.db)) && Final(cmd, storage.db).ops == txn.ops
      modifies storage
      ensures storage.Valid() && storage.db == After(cmd, old(storage.db))
    {
      storage.Write(txn.writes, txn.ops);
    }

    /** First phase: locks every key and stores its value, or reports every error and
        writes nothing. */
    method PrewriteLatched(mutations: seq<Mutation>, primary: Key, startVersion: U64, ttl: U64)
      returns (reply: Response)
      requires storage.Valid()
      modifies storage
      ensures storage.Valid()
      ensures var cmd := Prewrite(mutations, primary, startVersion, ttl);
              storage.db == After(cmd, old(storage.db)) && reply == ReplyTo(cmd, old(storage.db))
    {
      ghost var cmd := Prewrite(mutations, primary, startVersion, ttl);
      var txn := new MvccTxn(storage, startVersion);
      var errors: seq<KeyError> := [];
      for i := 0 to |mutations|
        invariant txn.Valid() && fresh(txn) && unchanged(storage)
        invariant Gather(cmd, storage.db, i) == Acc(txn.ops, errors, Ok, false)
      {
        PrewriteTurn(cmd, storage.db, i);
        var error := PrewriteOne(txn, mutations[i], primary, ttl, errors);
        if error.Some? { errors := errors + [error.value]; }
      }
      if errors != [] { return Errors(errors); }
      WriteBuffer(txn, cmd);
      return Ok;
    }

    static method PrewriteOne(txn: MvccTxn, m: Mutation, primary: Key, ttl: U64, ghost errors: seq<KeyError>)
      returns (error: Option<KeyError>)
      requires txn.Valid() && txn.reader.Valid()
      modifies txn
      ensures txn.Valid()
      ensures PrewriteStep(Acc(old(txn.ops), errors, Ok, false), m, primary, txn.startTs, ttl, txn.reader.db) ==
                Acc(txn.ops, if error.Some? then errors + [error.value] else errors, Ok, false)
    {
      var lock := txn.GetLock(m.key);
      if lock.Some? && lock.value.ts != txn.startTs { return Some(Locked(m.key, lock.value)); }
      var write, commitTs := txn.MostRecentWrite(m.key);
      if write.Some? && commitTs > txn.startTs { return Some(Conflict(m.key, txn.startTs, commitTs, primary)); }
      match m.op
      case OpPut =>
        txn.AddValue(m.key, m.value);
        txn.AddLock(m.key, Lock(primary, txn.startTs, ttl, Put));
        return None;
      case OpDel =>
        txn.RemoveValue(m.key);
        txn.AddLock(m.key, Lock(primary, txn.startTs, ttl, Delete));
        return None;
      case OpRollback =>
        return Some(Abort);
    }

    /** Second phase: first every key is checked, then every lock becomes a record. */
    method CommitLatched(keys: seq<Key>, startVersion: U64, commitVersion: U64) returns (reply: Response)
      requires storage.Valid()
      modifies storage
      ensures storage.Valid()
      ensures var cmd := Commit(keys, startVersion, commitVersion);
              storage.db == After(cmd, old(storage.db)) && reply == ReplyTo(cmd, old(storage.db))
    {
      ghost var cmd := Commit(keys, startVersion, commitVersion);
      var txn := new MvccTxn(storage, startVersion);
      var error := CheckAll(txn, keys, commitVersion, cmd);
      if error.Some? { return KeyFailure(error.value); }
      CommitAll(txn, keys, commitVersion, cmd);
      WriteBuffer(txn, cmd);
      return Ok;
    }

    static method CheckAll(txn: MvccTxn, keys: seq<Key>, commitVersion: U64, ghost cmd: Command)
      returns (error: Option<KeyError>)
      requires txn.reader.Valid() && cmd == Commit(keys, txn.startTs, commitVersion)
      ensures error.None? ==> Gather(cmd, txn.reader.db, |keys|) == EMPTY
      ensures error.Some? ==> Final(cmd, txn.reader.db) == EMPTY.(stopped := true, reply := KeyFailure(error.value))
    {
      ghost var db := txn.reader.db;
      for i := 0 to |keys|
        invariant Gather(cmd, db, i) == EMPTY
      {
        assert Items(cmd)[i] == CommitCheck(keys[i]);
        error := CommitCheckOne(txn, keys[i], commitVersion);
        if error.Some? {
          StoppedStays(cmd, db, i + 1, |Items(cmd)|);
          return;
        }
      }
      return None;
    }

    static method CommitAll(txn: MvccTxn, keys: seq<Key>, commitVersion: U64, ghost cmd: Command)
      requires txn.Valid() && txn.ops == [] && txn.reader.Valid() && cmd == Commit(keys, txn.startTs, commitVersion)
      requires Gather(cmd, txn.reader.db, |keys|) == EMPTY
      modifies txn
      ensures txn.Valid() && Final(cmd, txn.reader.db) == Acc(txn.ops, [], Ok, false)
    {
      ghost var db := txn.reader.db;
      for i := 0 to |keys|
        invariant txn.Valid() && unchanged(txn.reader)
        invariant Gather(cmd, db, |keys| + i) == Acc(txn.ops, [], Ok, false)
      {
        assert Items(cmd)[|keys| + i] == CommitKey(keys[i]);
        CommitOne(txn, keys[i], commitVersion);
      }
    }

    static method CommitCheckOne(txn: MvccTxn, key: Key, commitVersion: U64) returns (error: Option<KeyError>)
      requires txn.reader.Valid()
      ensures CommitCheckStep(EMPTY, key, txn.startTs, commitVersion, txn.reader.db) ==
              if error.Some? then EMPTY.(stopped := true, reply := KeyFailure(error.value)) else EMPTY
    {
      var lock := txn.GetLock(key);
      if lock.Some? {
        return if lock.value.ts != txn.startTs then Some(Locked(key, lock.value)) else None;
      }
      var write, commitTs := txn.CurrentWrite(key);
      if write.Some? && commitTs == commitVersion { return None; }
      return Some(Abort);
    }

    static method CommitOne(txn: MvccTxn, key: Key, commitVersion: U64)
      requires txn.Valid() && txn.reader.Valid()
      modifies txn
      ensures txn.Valid()
      ensures CommitKeyStep(Acc(old(txn.ops), [], Ok, false), key, txn.startTs, commitVersion, txn.reader.db) ==
              Acc(txn.ops, [], Ok, false)
    {
      var lock := txn.GetLock(key);
      if lock.Some? && lock.value.ts == txn.startTs {
        txn.AddWrite(key, commitVersion, Write(txn.startTs, lock.value.kind));
        txn.RemoveLock(key);
      }
    }

    /** Undoes all keys, unless one of them is locked by another transaction. */
    method RollbackLatched(keys: seq<Key>, startVersion: U64) returns (reply: Response)
      requires storage.Valid()
      modifies storage
      ensures storage.Valid()
      ensures var cmd := BatchRollback(keys, startVersion);
              storage.db == After(cmd, old(storage.db)) && reply == ReplyTo(cmd, old(storage.db))
    {
      ghost var cmd := BatchRollback(keys, startVersion);
      var txn := new MvccTxn(storage, startVersion);
      for i := 0 to |keys|
        invariant txn.Valid() && fresh(txn) && unchanged(storage)
        invariant Gather(cmd, storage.db, i) == Acc(txn.ops, [], Ok, false)
      {
        var error := RollbackOne(txn, keys[i]);
        if error.Some? {
          StoppedStays(cmd, storage.db, i + 1, |Items(cmd)|);
          return KeyFailure(error.value);
        }
      }
      WriteBuffer(txn, cmd);
      return Ok;
    }

    static method RollbackOne(txn: MvccTxn, key: Key) returns (error: Option<KeyError>)
      requires txn.Valid() && txn.reader.Valid()
      modifies txn
      ensures txn.Valid()
      ensures RollbackKeyStep(Acc(old(txn.ops), [], Ok, false), key, txn.startTs, txn.reader.db) ==
              if error.Some? then Acc(old(txn.ops), [], KeyFailure(error.value), true) else Acc(txn.ops, [], Ok, false)
    {
      var lock := txn.GetLock(key);
      if lock.Some? {
        if lock.value.ts != txn.startTs { return Some(Locked(key, lock.value)); }
        txn.RemoveLock(key);
      }
      var write, commitTs := txn.CurrentWrite(key);
      if write.Some? && commitTs > txn.startTs {
        // A record found by CurrentWrite was committed at the start timestamp itself.
        assert false;
      }
      txn.AddWrite(key, txn.startTs, RollbackRecord(txn.startTs));
      txn.RemoveValue(key);
      return None;
    }

    /** Reports on the primary lock, and rolls the transaction back there if the lock
        has expired or was never placed. */
    method StatusLatched(primaryKey: Key, lockTs: U64, currentTs: U64) returns (reply: Response)
      requires storage.Valid()
      modifies storage
      ensures storage.Valid()
      ensures var cmd := CheckStatus(primaryKey, lockTs, currentTs);
              storage.db == After(cmd, old(storage.db)) && reply == ReplyTo(cmd, old(storage.db))
    {
      ghost var cmd := CheckStatus(primaryKey, lockTs, currentTs);
      StatusTurn(storage.db, primaryKey, lockTs, currentTs);
      var txn := new MvccTxn(storage, lockTs);
      var lock := txn.GetLock(primaryKey);
      if lock.Some? {
        if lock.value.ts != lockTs || !Expired(lock.value, currentTs) { return StatusLocked(lock.value.ttl); }
        UndoLocked(txn, primaryKey);
        WriteBuffer(txn, cmd);
        return StatusRolledBack(true);
      }
      var write, commitTs := txn.CurrentWrite(primaryKey);
      if write.Some? && commitTs > 0 { return StatusCommitted(commitTs); }
      txn.AddWrite(primaryKey, lockTs, RollbackRecord(lockTs));
      WriteBuffer(txn, cmd);
      return StatusRolledBack(false);
    }

    /** Commits or rolls back the given keys where the transaction still holds them. */
    method ResolveLatched(keys: seq<Key>, startVersion: U64, commitVersion: U64) returns (reply: Response)
      requires storage.Valid()
      modifies storage
      ensures storage.Valid()
      ensures var cmd := Resolve(keys, startVersion, commitVersion);
              storage.db == After(cmd, old(storage.db)) && reply == ReplyTo(cmd, old(storage.db))
    {
      ghost var cmd := Resolve(keys, startVersion, commitVersion);
      var txn := new MvccTxn(storage, startVersion);
      for i := 0 to |keys|
        invariant txn.Valid() && fresh(txn) && unchanged(storage)
        invariant Gather(cmd, storage.db, i) == Acc(txn.ops, [], Ok, false)
      {
        ResolveOne(txn, keys[i], commitVersion);
      }
      WriteBuffer(txn, cmd);
      return Ok;
    }

    static method ResolveOne(txn: MvccTxn, key: Key, commitVersion: U64)
      requires txn.Valid() && txn.reader.Valid()
      modifies txn
      ensures txn.Valid()
      ensures ResolveStep(Acc(old(txn.ops), [], Ok, false), key, txn.startTs, commitVersion, txn.reader.db) ==
              Acc(txn.ops, [], Ok, false)
    {
      var lock := txn.GetLock(key);
      if lock.Some? && lock.value.ts == txn.startTs {
        if commitVersion > 0 {
          txn.AddWrite(key, commitVersion, Write(txn.startTs, lock.value.kind));
          txn.RemoveLock(key);
        } else {
          UndoLocked(txn, key);
        }
      }
    }

    /** Frees the key, marks it rolled back and drops its value. */
    static method UndoLocked(txn: MvccTxn, key: Key)
      requires txn.Valid()
      modifies txn
      ensures txn.Valid()
      ensures txn.ops == old(txn.ops) + [DeleteLock(key)] + [PutWrite(key, txn.startTs, RollbackRecord(txn.startTs))] +
                         [DeleteValue(key, txn.startTs)]
    {
      txn.RemoveLock(key);
      txn.AddWrite(key, txn.startTs, RollbackRecord(txn.startTs));
      txn.RemoveValue(key);
    }

    /** Walks the lock family in key order and keeps the keys locked by `ts`. */
    method LocksOf(ts: U64) returns (keys: seq<Key>)
      requires storage.Valid()
      ensures keys == LockedKeys(storage.db, ts)
    {
      var all := SortedKeys(storage.lockCf.Keys);
      keys := [];
      for i := 0 to |all|
        invariant StrictlySorted(keys)
        invariant forall k :: k in keys <==> k in all[..i] && LockedBy(storage.db, k, ts)
      {
        assert all[..i + 1] == all[..i] + [all[i]];
        if storage.lockCf[all[i]].ts == ts {
          forall j | 0 <= j < |keys| ensures Less(keys[j], all[i]) {
            assert keys[j] in all[..i];
            var n :| 0 <= n < i && all[n] == keys[j];
            assert Less(all[n], all[i]);
          }
          keys := keys + [all[i]];
        }
      }
      assert all[..|all|] == all;
      SortedUnique(keys, LockedKeys(storage.db, ts));
    }

    /** Scans from `startKey`, one pair a row, up to the limit; a row whose key another
        transaction has locked is reported as an error. */
    method KvScan(startKey: Key, limit: nat, version: U64) returns (pairs: seq<ScanPair>)
      requires storage.Valid()
      ensures exists rows: seq<Row> ::
                && ScanPrefix(storage.db, startKey, None, version, rows)
                && |rows| <= limit && (|rows| < limit ==> ScanComplete(storage.db, startKey, None, version, rows))
                && |pairs| == |rows| && forall i :: 0 <= i < |rows| ==>
                     pairs[i] == PairFor(storage.db, rows[i], version)
      ensures forall i :: 0 <= i < |pairs| ==> ReportsGet(storage.db, pairs[i], version)
    {
      var txn := new MvccTxn(storage, version);
      var scanner := new Scanner(startKey, None, limit, txn);
      pairs := [];
      var count := 0;
      var more := true;
      while count < limit && more
        invariant scanner.Valid() && scanner.Fresh() && fresh(scanner) && fresh(scanner.writeIter)
        invariant scanner.txn == txn && scanner.startKey == startKey && scanner.endKey == None && scanner.limit == limit
        invariant count == |pairs| == |scanner.now.rows| <= limit
        invariant forall i :: 0 <= i < |pairs| ==> pairs[i] == PairFor(storage.db, scanner.now.rows[i], version)
        invariant !more ==> scanner.exhausted
        decreases limit - count, more
      {
        var row := scanner.Next();
        if row.None? {
          more := false;
        } else {
          var lock := txn.GetLock(row.value.0);
          if lock.Some? && lock.value.ts != version {
            pairs := pairs + [PairError(row.value.0, lock.value)];
          } else {
            pairs := pairs + [Pair(row.value.0, row.value.1)];
          }
          count := count + 1;
        }
      }
      scanner.Meaning();
      forall i | 0 <= i < |pairs| ensures ReportsGet(storage.db, pairs[i], version) {
        PairReportsGet(storage.db, scanner.now.rows[i], version);
      }
    }
  }

  lemma {:induction false} PrewriteTurn(cmd: Command, db: Db, i: nat)
    requires cmd.Prewrite? && i < |cmd.mutations| && !Gather(cmd, db, i).stopped
    ensures Gather(cmd, db, i + 1) ==
            PrewriteStep(Gather(cmd, db, i), cmd.mutations[i], cmd.primary, cmd.startTs, cmd.ttl, db)
  {
    assert Items(cmd)[i] == PrewriteKey(cmd.mutations[i]);
  }

  function PairFor(db: Db, row: Row, t: U64): ScanPair {
    if LockedByOther(db, row.0, t) then PairError(row.0, db.locks[row.0]) else Pair(row.0, row.1)
  }

  /** A pair is what a get of its key reports, when every put record has its value. */
  ghost predicate ReportsGet(db: Db, pair: ScanPair, t: U64) {
    match pair
    case PairError(k, lock) => Get(db, k, t) == LockError(lock)
    case Pair(k, v) => Get(db, k, t).Answer? && (RecordsBacked(db) ==> Get(db, k, t) == Answer(Some(v)))
  }

  lemma {:induction false} PairReportsGet(db: Db, row: Row, t: U64)
    requires ScanRead(db, row.0, t) == Some(row.1)
    ensures ReportsGet(db, PairFor(db, row, t), t)
  {
    if RecordsBacked(db) { ScanIsPointRead(db, row.0, t); }
  }

  /** A strictly sorted list is determined by its elements. */
  lemma {:induction false} SortedUnique(a: seq<Bytes>, b: seq<Bytes>)
    requires StrictlySorted(a) && StrictlySorted(b) && forall x :: x in a <==> x in b
    ensures a == b
    decreases |a|
  {
    if |a| == 0 {
      if |b| > 0 { HasElement(b); }
    } else {
      assert a[0] in a;
      var i :| 0 <= i < |b| && b[i] == a[0];
      assert b[0] in b;
      var j :| 0 <= j < |a| && a[j] == b[0];
      if i > 0 {
        assert Less(b[0], b[i]);
        if j > 0 { assert Less(a[0], a[j]); }
        LessAsymmetric(b[0], b[i]);
      }
      TailElements(a, b);
      SortedUnique(a[1..], b[1..]);
      assert a == [a[0]] + a[1..] && b == [b[0]] + b[1..];
    }
  }

  lemma {:induction false} HasElement(b: seq<Bytes>)
    requires |b| > 0
    ensures b[0] in b
  {
  }

  lemma {:induction false} TailElements(a: seq<Bytes>, b: seq<Bytes>)
    requires StrictlySorted(a) && StrictlySorted(b) && |a| > 0 && |b| > 0 && a[0] == b[0]
    requires forall x :: x in a <==> x in b
    ensures StrictlySorted(a[1..]) && StrictlySorted(b[1..])
    ensures forall x :: x in a[1..] <==> x in b[1..]
  {
    forall x ensures x in a[1..] <==> x in a && x != a[0] { TailElement(a, x); }
    forall x ensures x in b[1..] <==> x in b && x != b[0] { TailElement(b, x); }
    forall i, j | 0 <= i < j < |a[1..]| ensures Less(a[1..][i], a[1..][j]) { assert Less(a[i + 1], a[j + 1]); }
    forall i, j | 0 <= i < j < |b[1..]| ensures Less(b[1..][i], b[1..][j]) { assert Less(b[i + 1], b[j + 1]); }
  }

  lemma {:induction false} TailElement(a: seq<Bytes>, x: Bytes)
    requires StrictlySorted(a) && |a| > 0
    ensures x in a[1..] <==> x in a && x != a[0]
  {
    if x in a[1..] {
      var i :| 0 <= i < |a| - 1 && a[1..][i] == x;
      assert Less(a[0], a[i + 1]);
      LessAsymmetric(a[0], x);
    }
  }
}
