/** The status of a transaction, as a check of its primary key reports and settles it. */
module TxnStatus {
  import opened Codec
  import opened Options
  import opened MvccModel
  import opened MvccTxns
  import opened Commands
  import opened CommandLaws
  import opened TxnLaws
  import opened TxnRuns

  /** Timestamps count in units of which this many make a millisecond. */
  const TICKS := 65536

  const TWO_TO_64 := 0x1_0000_0000_0000_0000

  /** The last millisecond in which a lock placed at `s` is alive, in 64 bits. */
  function Deadline(s: U64, ttl: U64): nat {
    if s / TICKS + ttl < TWO_TO_64 then s / TICKS + ttl else s / TICKS + ttl - TWO_TO_64
  }

  lemma {:induction false} StatusTurn(db: Db, k: Key, s: U64, now: U64)
    ensures var cmd := CheckStatus(k, s, now); Final(cmd, db) == StatusStep(EMPTY, k, s, now, db)
  {
    var cmd := CheckStatus(k, s, now);
    assert Gather(cmd, db, 1) == Step(cmd, Gather(cmd, db, 0), StatusKey(k), db);
  }

  lemma {:induction false} ApplyOne(db: Db, op: Op)
    ensures ApplyAll(db, [op]) == Apply(db, op)
  {
    assert [op][..0] == [] && ApplyAll(db, []) == db;
  }

  lemma {:induction false} ApplyThree(db: Db, a: Op, b: Op, c: Op)
    ensures ApplyAll(db, [] + [a] + [b] + [c]) == Apply(Apply(Apply(db, a), b), c)
  {
    var ops := [] + [a] + [b] + [c];
    assert ops[..2] == [a] + [b] == [] + [a] + [b];
    ApplyTwo(db, [], a, b);
  }

  /** The check of a locked key. Someone else's lock is reported. The lock of the transaction is
      reported up to its deadline, to the millisecond, and nothing changes; after it the lock and
      the value go and a rollback record is left. */
  lemma {:induction false} LockedStatus(db: Db, k: Key, s: U64, now: U64)
    requires k in db.locks
    ensures var cmd, lock := CheckStatus(k, s, now), db.locks[k];
            if lock.ts != s || now / TICKS <= Deadline(s, lock.ttl) then
              After(cmd, db) == db && ReplyTo(cmd, db) == StatusLocked(lock.ttl)
            else
              && After(cmd, db) == Db(db.locks - {k}, db.writes[(k, s) := Write(s, Rollback)], db.values - {(k, s)})
              && ReplyTo(cmd, db) == StatusRolledBack(true)
  {
    StatusTurn(db, k, s, now);
    ApplyThree(db, DeleteLock(k), PutWrite(k, s, RollbackRecord(s)), DeleteValue(k, s));
  }

  /** The check of a key that is not locked reports the transaction as committed if and only if
      there is a record at its start timestamp, and that is not zero; then nothing changes.
      Otherwise it is reported as rolled back, and a record says so from then on. */
  lemma {:induction false} UnlockedStatus(db: Db, k: Key, s: U64, now: U64)
    requires k !in db.locks
    ensures var cmd := CheckStatus(k, s, now);
            && (ReplyTo(cmd, db) == StatusCommitted(s) <==> (k, s) in db.writes && s > 0)
            && (ReplyTo(cmd, db) == StatusCommitted(s) ==> After(cmd, db) == db)
            && (ReplyTo(cmd, db) != StatusCommitted(s) ==>
                  && ReplyTo(cmd, db) == StatusRolledBack(false)
                  && After(cmd, db) == db.(writes := db.writes[(k, s) := Write(s, Rollback)]))
  {
    StatusTurn(db, k, s, now);
    ApplyOne(db, PutWrite(k, s, RollbackRecord(s)));
    assert [] + [PutWrite(k, s, RollbackRecord(s))] == [PutWrite(k, s, RollbackRecord(s))];
  }

  // ---- Over runs ----

  /** A command that is not of transaction `s`, or checks its status by the deadline. */
  predicate Patient(cmd: Command, s: U64, deadline: nat) {
    cmd.startTs != s || (cmd.CheckStatus? && cmd.currentTs / TICKS <= deadline)
  }

  lemma {:induction false} PatientKeeps(cmd: Command, db: Db, k: Key, s: U64)
    requires LockedBy(db, k, s) && Patient(cmd, s, Deadline(s, db.locks[k].ttl))
    ensures LockAt(After(cmd, db), k) == LockAt(db, k)
    ensures Lookup(After(cmd, db).values, (k, s)) == Lookup(db.values, (k, s))
  {
    if cmd.startTs != s {
      LockSurvives(cmd, db, k, s);
      if Writes(Final(cmd, db)) { ValueAfter(cmd, db, (k, s)); }
    } else if cmd.primaryKey == k {
      LockedStatus(db, k, s, cmd.currentTs);
    } else if Writes(Final(cmd, db)) {
      LockAfter(cmd, db, k);
      ValueAfter(cmd, db, (k, s));
    }
  }

  /** A live lock is safe: through every run in which the transaction is only heard of in status
      checks up to the deadline of the lock, the lock and its value stay as they are, a check up to
      the deadline reports the lock and changes nothing, and a commit of the key goes through. */
  lemma {:induction false} LiveLockStays(db: Db, cmds: seq<Command>, k: Key, s: U64, now: U64, c: U64)
    requires LockedBy(db, k, s)
    requires forall i :: 0 <= i < |cmds| ==> Patient(cmds[i], s, Deadline(s, db.locks[k].ttl))
    ensures var d := RunAll(db, cmds);
            && LockAt(d, k) == LockAt(db, k) && Lookup(d.values, (k, s)) == Lookup(db.values, (k, s))
            && ReplyTo(Commit([k], s, c), d) == Ok
            && (now / TICKS <= Deadline(s, db.locks[k].ttl) ==>
                  ReplyTo(CheckStatus(k, s, now), d) == StatusLocked(db.locks[k].ttl)
                  && After(CheckStatus(k, s, now), d) == d)
    decreases |cmds|
  {
    if |cmds| > 0 {
      PatientKeeps(cmds[0], db, k, s);
      LiveLockStays(After(cmds[0], db), cmds[1..], k, s, now, c);
    } else {
      CommitSucceedsIff([k], s, c, db);
      LockedStatus(db, k, s, now);
    }
  }

  /** An expired lock is lost: once a check after the deadline has found it, and through every run
      that does not prewrite the key for the transaction again, no commit that includes the key
      goes through. */
  lemma {:induction false} ExpiredCannotCommit(db: Db, k: Key, s: U64, now: U64, cmds: seq<Command>, keys: seq<Key>,
                                               c: U64)
    requires LockedBy(db, k, s) && now / TICKS > Deadline(s, db.locks[k].ttl)
    requires forall i :: 0 <= i < |cmds| ==> !PrewritesKey(cmds[i], k, s)
    requires k in keys && c > s
    ensures var d := RunAll(After(CheckStatus(k, s, now), db), cmds);
            ReplyTo(Commit(keys, s, c), d) != Ok && After(Commit(keys, s, c), d) == d
  {
    var check := CheckStatus(k, s, now);
    LockedStatus(db, k, s, now);
    StatusTurn(db, k, s, now);
    RollbackIsFinal(db, check, cmds, k, keys, c, (k, s));
  }

  /** What a check says of a transaction that has committed the key: that it has committed if and
      only if the commit timestamp is the start timestamp, or a record stood there before, and the
      start timestamp is not zero. In all other cases it says, and records, a rollback. */
  lemma {:induction false} StatusAfterCommitIff(db: Db, keys: seq<Key>, k: Key, s: U64, c: U64, now: U64)
    requires k in keys && LockedBy(db, k, s) && ReplyTo(Commit(keys, s, c), db) == Ok
    ensures var d, check := After(Commit(keys, s, c), db), CheckStatus(k, s, now);
            && (ReplyTo(check, d) == StatusCommitted(s) <==> s > 0 && (c == s || (k, s) in db.writes))
            && (ReplyTo(check, d) != StatusCommitted(s) ==> ReplyTo(check, d) == StatusRolledBack(false))
  {
    var commit := Commit(keys, s, c);
    CommitSucceedsIff(keys, s, c, db);
    LockAfter(commit, db, k);
    WriteAfter(commit, db, (k, s));
    UnlockedStatus(After(commit, db), k, s, now);
  }

  /** And of one that was rolled back there: that it has committed, unless it started at zero. */
  lemma {:induction false} StatusAfterRollback(db: Db, rollback: Command, k: Key, now: U64)
    requires RollsBack(rollback) && Writes(Final(rollback, db)) && Marks(rollback, db, k)
    requires !LockedByOther(db, k, rollback.startTs)
    ensures var s := rollback.startTs;
            ReplyTo(CheckStatus(k, s, now), After(rollback, db)) ==
            if s > 0 then StatusCommitted(s) else StatusRolledBack(false)
  {
    LockAfter(rollback, db, k);
    WriteAfter(rollback, db, (k, rollback.startTs));
    UnlockedStatus(After(rollback, db), k, rollback.startTs, now);
  }
}
