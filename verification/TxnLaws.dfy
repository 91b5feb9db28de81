/** What the commands promise: when they succeed, and what readers then see. */
module TxnLaws {
  import opened Codec
  import opened Options
  import opened MvccModel
  import opened MvccTxns
  import opened Commands
  import opened CommandLaws

  // ---- When a command succeeds ----

  predicate CommitReady(db: Db, k: Key, s: U64, c: U64) {
    LockedBy(db, k, s) || (k !in db.locks && (k, s) in db.writes && s == c)
  }

  lemma {:induction false} CommitChecks(cmd: Command, db: Db, n: nat)
    requires cmd.Commit? && n <= |Items(cmd)|
    ensures var acc := Gather(cmd, db, n);
            && acc.errors == []
            && (!acc.stopped <==> forall i :: 0 <= i < n && i < |cmd.keys| ==>
                CommitReady(db, cmd.keys[i], cmd.startTs, cmd.commitTs))
            && (if acc.stopped then acc.reply.KeyFailure? else acc.reply == Ok)
  {
    if n > 0 {
      CommitChecks(cmd, db, n - 1);
      var item := Items(cmd)[n - 1];
      assert item == if n - 1 < |cmd.keys| then CommitCheck(cmd.keys[n - 1])
               else CommitKey(cmd.keys[n - 1 - |cmd.keys|]);
    }
  }

  /** A commit goes through exactly when each of its keys is locked by it, or was
      recorded at its start timestamp and that is also the commit timestamp. */
  lemma {:induction false} CommitSucceedsIff(keys: seq<Key>, s: U64, c: U64, db: Db)
    ensures ReplyTo(Commit(keys, s, c), db) == Ok <==> forall k :: k in keys ==> CommitReady(db, k, s, c)
    ensures Writes(Final(Commit(keys, s, c), db)) <==> ReplyTo(Commit(keys, s, c), db) == Ok
  {
    var cmd := Commit(keys, s, c);
    CommitChecks(cmd, db, |Items(cmd)|);
    if forall i :: 0 <= i < |keys| ==> CommitReady(db, keys[i], s, c) {
      assert forall k :: k in keys ==> CommitReady(db, k, s, c);
    } else {
      var i :| 0 <= i < |keys| && !CommitReady(db, keys[i], s, c);
      assert keys[i] in keys;
    }
  }

  predicate PrewriteReady(db: Db, m: Mutation, s: U64) {
    !LockedByOther(db, m.key, s) && !m.op.OpRollback?
  }

  lemma {:induction false} PrewriteGathers(cmd: Command, db: Db, n: nat)
    requires cmd.Prewrite? && n <= |cmd.mutations|
    ensures n <= |Items(cmd)|
    ensures var acc := Gather(cmd, db, n);
            && !acc.stopped && acc.reply == Ok
            && (acc.errors == [] <==> forall i :: 0 <= i < n ==> PrewriteReady(db, cmd.mutations[i], cmd.startTs))
  {
    if n > 0 { PrewriteGathers(cmd, db, n - 1); }
  }

  /** A prewrite goes through exactly when no key is locked by another transaction
      and every operation is a put or a delete. Records committed after its start
      never stop it: the conflict test only sees records up to the start. */
  lemma {:induction false} PrewriteSucceedsIff(ms: seq<Mutation>, primary: Key, s: U64, ttl: U64, db: Db)
    ensures var cmd := Prewrite(ms, primary, s, ttl);
            && (ReplyTo(cmd, db) == Ok <==> forall m :: m in ms ==> PrewriteReady(db, m, s))
            && (Writes(Final(cmd, db)) <==> ReplyTo(cmd, db) == Ok)
  {
    var cmd := Prewrite(ms, primary, s, ttl);
    PrewriteGathers(cmd, db, |ms|);
    if forall i :: 0 <= i < |ms| ==> PrewriteReady(db, ms[i], s) {
      assert forall m :: m in ms ==> PrewriteReady(db, m, s);
    } else {
      var i :| 0 <= i < |ms| && !PrewriteReady(db, ms[i], s);
      assert ms[i] in ms;
    }
  }

  /** A rollback goes through exactly when no key is locked by another transaction. */
  lemma {:induction false} RollbackSucceedsIff(keys: seq<Key>, s: U64, db: Db)
    ensures ReplyTo(BatchRollback(keys, s), db) == Ok <==> forall k :: k in keys ==> !LockedByOther(db, k, s)
    ensures Writes(Final(BatchRollback(keys, s), db)) <==> ReplyTo(BatchRollback(keys, s), db) == Ok
  {
    var cmd := BatchRollback(keys, s);
    RollbackGathers(cmd, db, |Items(cmd)|);
    if forall i :: 0 <= i < |keys| ==> !LockedByOther(db, keys[i], s) {
      assert forall k :: k in keys ==> !LockedByOther(db, k, s);
    } else {
      var i :| 0 <= i < |keys| && LockedByOther(db, keys[i], s);
      assert keys[i] in keys;
    }
  }

  // ---- What a command that fails reports ----

  /** One error for each mutation that is not ready, in order. */
  function ErrorsOf(ms: seq<Mutation>, s: U64, db: Db): seq<KeyError> {
    if ms == [] then []
    else
      var front, m := ErrorsOf(ms[..|ms| - 1], s, db), ms[|ms| - 1];
      if PrewriteReady(db, m, s) then front
      else if LockedByOther(db, m.key, s) then front + [Locked(m.key, db.locks[m.key])]
      else front + [Abort]
  }

  lemma {:induction false} GatherErrors(cmd: Command, db: Db, n: nat)
    requires cmd.Prewrite? && n <= |cmd.mutations|
    ensures Gather(cmd, db, n).errors == ErrorsOf(cmd.mutations[..n], cmd.startTs, db)
  {
    if n > 0 {
      GatherErrors(cmd, db, n - 1);
      PrewriteGathers(cmd, db, n - 1);
      assert cmd.mutations[..n][..n - 1] == cmd.mutations[..n - 1];
      assert Items(cmd)[n - 1] == PrewriteKey(cmd.mutations[n - 1]);
    }
  }

  /** A prewrite that fails changes nothing and reports every mutation that stands in its way: the
      lock of another transaction, or an operation it does not know. */
  lemma {:induction false} PrewriteReports(cmd: Command, db: Db)
    requires cmd.Prewrite? && ReplyTo(cmd, db) != Ok
    ensures ReplyTo(cmd, db) == Errors(ErrorsOf(cmd.mutations, cmd.startTs, db)) && After(cmd, db) == db
  {
    PrewriteGathers(cmd, db, |cmd.mutations|);
    GatherErrors(cmd, db, |cmd.mutations|);
    assert cmd.mutations[..|cmd.mutations|] == cmd.mutations;
  }

  /** Key `i` is the first that stops a commit or a rollback. */
  predicate FirstStop(cmd: Command, db: Db, i: nat)
    requires cmd.Commit? || cmd.BatchRollback?
  {
    i < |cmd.keys| && Stops(cmd, db, cmd.keys[i]) && forall j :: 0 <= j < i ==> !Stops(cmd, db, cmd.keys[j])
  }

  predicate Stops(cmd: Command, db: Db, k: Key)
    requires cmd.Commit? || cmd.BatchRollback?
  {
    if cmd.Commit? then !CommitReady(db, k, cmd.startTs, cmd.commitTs) else LockedByOther(db, k, cmd.startTs)
  }

  lemma {:induction false} StopsAt(cmd: Command, db: Db, i: nat)
    requires (cmd.Commit? || cmd.BatchRollback?) && FirstStop(cmd, db, i)
    ensures var acc, k := Final(cmd, db), cmd.keys[i];
            acc.stopped && acc.reply == KeyFailure(if k in db.locks then Locked(k, db.locks[k]) else Abort)
  {
    var k := cmd.keys[i];
    assert i < |Items(cmd)| && Items(cmd)[i] == if cmd.Commit? then CommitCheck(k) else RollbackKey(k);
    if cmd.Commit? {
      CommitChecks(cmd, db, i);
    } else {
      RollbackGathers(cmd, db, i);
    }
    StoppedStays(cmd, db, i + 1, |Items(cmd)|);
  }

  /** A commit or a rollback that fails changes nothing and reports the first key that stands in its
      way: its lock, if another transaction holds it, and that the key is not locked otherwise. */
  lemma {:induction false} FailureReports(cmd: Command, db: Db, i: nat)
    requires (cmd.Commit? || cmd.BatchRollback?) && FirstStop(cmd, db, i)
    ensures var k := cmd.keys[i];
            ReplyTo(cmd, db) == KeyFailure(if k in db.locks then Locked(k, db.locks[k]) else Abort)
    ensures After(cmd, db) == db
  {
    StopsAt(cmd, db, i);
  }

  // ---- What readers see after a command ----

  /** Every put lock has its value in store. */
  ghost predicate LocksBacked(db: Db) {
    forall k :: k in db.locks && db.locks[k].kind.Put? ==> (k, db.locks[k].ts) in db.values
  }

  /** The value the lock of `k` stands for. */
  function LockedValue(db: Db, k: Key): Option<Value>
    requires k in db.locks
  {
    if db.locks[k].kind.Put? then Lookup(db.values, (k, db.locks[k].ts)) else None
  }

  /** A read is untouched by a command that neither sets a record of its key up to
      its timestamp nor changes the value it shows. */
  lemma {:induction false} ReadKept(cmd: Command, db: Db, k: Key, t: U64)
    requires Writes(Final(cmd, db)) ==> cmd.Prewrite? || !Marks(cmd, db, k) || MarkTs(cmd) > t
    requires var c := Latest(db.writes, k, t);
             c.Some? && db.writes[(k, c.value)].kind.Put? ==>
               Lookup(After(cmd, db).values, (k, db.writes[(k, c.value)].startTs)) ==
               Lookup(db.values, (k, db.writes[(k, c.value)].startTs))
    ensures Read(After(cmd, db), k, t) == Read(db, k, t)
  {
    if Writes(Final(cmd, db)) {
      forall c: U64 | c <= t ensures WriteAt(After(cmd, db), (k, c)) == WriteAt(db, (k, c)) {
        WriteAfter(cmd, db, (k, c));
      }
      forall c | 0 <= c <= t
        ensures (k, c) in db.writes <==> (k, c) in After(cmd, db).writes
        ensures (k, c) in db.writes ==> db.writes[(k, c)] == After(cmd, db).writes[(k, c)]
      {
        assert WriteAt(After(cmd, db), (k, c)) == WriteAt(db, (k, c));
      }
      ReadDependsOn(db, After(cmd, db), k, t);
    }
  }

  /** A failed commit changes nothing. A successful one at a fresh timestamp changes
      no read of another key or of an earlier time, and from its timestamp on every
      one of its keys reads as this transaction's write, until a newer record. */
  lemma {:induction false} CommitIsAtomic(keys: seq<Key>, s: U64, c: U64, db: Db, k: Key, t: U64)
    requires s < c
    requires forall k' :: k' in keys ==> (k', c) !in db.writes
    ensures var cmd := Commit(keys, s, c);
            && (ReplyTo(cmd, db) != Ok ==> After(cmd, db) == db)
            && (k !in keys || t < c ==> Read(After(cmd, db), k, t) == Read(db, k, t))
            && (ReplyTo(cmd, db) == Ok && k in keys && c <= t
                && (forall c' :: c < c' <= t ==> (k, c') !in db.writes) ==>
                  LockedBy(db, k, s) && Read(After(cmd, db), k, t) == LockedValue(db, k) && k !in After(cmd, db).locks)
  {
    var cmd := Commit(keys, s, c);
    CommitSucceedsIff(keys, s, c, db);
    if Writes(Final(cmd, db)) {
      if k !in keys || t < c {
        if Latest(db.writes, k, t).Some? {
          ValueAfter(cmd, db, (k, db.writes[(k, Latest(db.writes, k, t).value)].startTs));
        }
        ReadKept(cmd, db, k, t);
      } else if forall c' :: c < c' <= t ==> (k, c') !in db.writes {
        assert CommitReady(db, k, s, c);
        LockAfter(cmd, db, k);
        MarkIsRead(cmd, db, k, t);
        ValueAfter(cmd, db, (k, s));
      }
    }
  }

  /** The mark a command leaves is the newest record at `t` when nothing newer is. */
  lemma {:induction false} MarkIsRead(cmd: Command, db: Db, k: Key, t: U64)
    requires Writes(Final(cmd, db)) && !cmd.Prewrite? && Marks(cmd, db, k) && MarkTs(cmd) <= t
    requires forall c' :: MarkTs(cmd) < c' <= t ==> (k, c') !in db.writes
    ensures Latest(After(cmd, db).writes, k, t) == Some(MarkTs(cmd))
    ensures After(cmd, db).writes[(k, MarkTs(cmd))] == Mark(cmd, db, k)
  {
    var c := MarkTs(cmd);
    WriteAfter(cmd, db, (k, c));
    forall c' | c < c' <= t ensures (k, c') !in After(cmd, db).writes {
      WriteAfter(cmd, db, (k, c'));
    }
    LatestUnique(After(cmd, db).writes, k, t, c);
  }

  // ---- Rollback records in front of readers ----

  /** The read of `k` at `t` shows nothing, or shows a record that a rollback of `s`
      neither covers, replaces nor strips of its value. */
  predicate RollbackHarmless(db: Db, k: Key, s: U64, t: U64) {
    Read(db, k, t).None? ||
    var c := Latest(db.writes, k, t).value;
    (s > t || s < c) && db.writes[(k, c)].startTs != s
  }

  /** A rollback that marks `k` leaves a read of it alone exactly when it is harmless
      in this sense: a rollback record hides everything older from readers, and the
      value of an already committed transaction is deleted with it. */
  lemma {:induction false} RollbackKeepsReadIff(keys: seq<Key>, s: U64, db: Db, k: Key, t: U64)
    requires ReplyTo(BatchRollback(keys, s), db) == Ok && k in keys
    ensures Read(After(BatchRollback(keys, s), db), k, t) == Read(db, k, t) <==> RollbackHarmless(db, k, s, t)
  {
    var cmd := BatchRollback(keys, s);
    RollbackGathers(cmd, db, |Items(cmd)|);
    RollbackOnRead(cmd, db, k, t);
  }

  lemma {:induction false} RollbackGathers(cmd: Command, db: Db, n: nat)
    requires cmd.BatchRollback? && n <= |Items(cmd)|
    ensures var acc := Gather(cmd, db, n);
            && acc.errors == []
            && (!acc.stopped <==> forall i :: 0 <= i < n ==> !LockedByOther(db, cmd.keys[i], cmd.startTs))
            && (if acc.stopped then acc.reply.KeyFailure? else acc.reply == Ok)
  {
    if n > 0 { RollbackGathers(cmd, db, n - 1); }
  }

  lemma {:induction false} RollbackOnRead(cmd: Command, db: Db, k: Key, t: U64)
    requires cmd.BatchRollback? && Writes(Final(cmd, db)) && k in cmd.keys
    ensures Read(After(cmd, db), k, t) == Read(db, k, t) <==> RollbackHarmless(db, k, cmd.startTs, t)
  {
    var s, c, db' := cmd.startTs, Latest(db.writes, k, t), After(cmd, db);
    WriteAfter(cmd, db, (k, s));
    if s > t {
      UnmarkedPrefix(cmd, db, k, t);
      if c.Some? { ValueAfter(cmd, db, (k, db.writes[(k, c.value)].startTs)); }
    } else if c.None? || c.value <= s {
      forall c' | s < c' <= t ensures (k, c') !in db.writes {
      }
      MarkIsRead(cmd, db, k, t);
    } else {
      WriteAfter(cmd, db, (k, c.value));
      forall c' | c.value < c' <= t ensures (k, c') !in db'.writes {
        WriteAfter(cmd, db, (k, c'));
      }
      LatestUnique(db'.writes, k, t, c.value);
      ValueAfter(cmd, db, (k, db.writes[(k, c.value)].startTs));
    }
  }

  /** Below the mark the records are as before. */
  lemma {:induction false} UnmarkedPrefix(cmd: Command, db: Db, k: Key, t: U64)
    requires Writes(Final(cmd, db)) && !cmd.Prewrite? && MarkTs(cmd) > t
    ensures Latest(After(cmd, db).writes, k, t) == Latest(db.writes, k, t)
    ensures Latest(db.writes, k, t).Some? ==>
              WriteAt(After(cmd, db), (k, Latest(db.writes, k, t).value)) ==
              WriteAt(db, (k, Latest(db.writes, k, t).value))
  {
    var c := Latest(db.writes, k, t);
    forall c': U64 | c' <= t ensures WriteAt(After(cmd, db), (k, c')) == WriteAt(db, (k, c')) {
      WriteAfter(cmd, db, (k, c'));
    }
    if c.Some? {
      forall c' | c.value < c' <= t ensures (k, c') !in After(cmd, db).writes {
        assert WriteAt(After(cmd, db), (k, c')) == WriteAt(db, (k, c'));
      }
      assert WriteAt(After(cmd, db), (k, c.value)) == WriteAt(db, (k, c.value));
      LatestUnique(After(cmd, db).writes, k, t, c.value);
    } else {
      var c2 := Latest(After(cmd, db).writes, k, t);
      assert c2.Some? ==> WriteAt(After(cmd, db), (k, c2.value)) == WriteAt(db, (k, c2.value));
    }
  }
}
