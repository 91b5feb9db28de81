/** From the first phase of a transaction to its readers: what a prewrite stores, what it
    keeps readers from meanwhile, and what they read once it is committed. */
module TxnVisibility {
  import opened Codec
  import opened Options
  import opened MvccModel
  import opened MvccTxns
  import opened Commands
  import opened CommandLaws
  import opened TxnLaws
  import opened TxnRuns

  // ---- What a prewrite stores ----

  /** No later mutation is of the same key. */
  predicate IsLast(ms: seq<Mutation>, i: nat) {
    i < |ms| && forall j :: i < j < |ms| ==> ms[j].key != ms[i].key
  }

  lemma {:induction false} LastExists(ms: seq<Mutation>, i: nat) returns (last: nat)
    requires i < |ms|
    ensures IsLast(ms, last) && ms[last].key == ms[i].key
    decreases |ms| - i
  {
    if j :| i < j < |ms| && ms[j].key == ms[i].key {
      last := LastExists(ms, j);
    } else {
      last := i;
    }
  }

  /** The lock that stands for a mutation. */
  function LockFor(m: Mutation, primary: Key, s: U64, ttl: U64): Lock {
    Lock(primary, s, ttl, if m.op.OpPut? then Put else Delete)
  }

  /** What is read of a mutation once it is committed. */
  function ValueFor(m: Mutation): Option<Value> {
    if m.op.OpPut? then Some(m.value) else None
  }

  /** The mutation of `k` is in store: locked, and with the value it puts or none. */
  predicate Stored(db: Db, m: Mutation, primary: Key, s: U64, ttl: U64) {
    && LockAt(db, m.key) == Some(LockFor(m, primary, s, ttl))
    && Lookup(db.values, (m.key, s)) == ValueFor(m)
  }

  lemma {:induction false} StepStores(cmd: Command, db: Db, acc: Acc, m: Mutation)
    requires cmd.Prewrite? && PrewriteReady(db, m, cmd.startTs)
    ensures var d, d' := ApplyAll(db, acc.ops),
                         ApplyAll(db, PrewriteStep(acc, m, cmd.primary, cmd.startTs, cmd.ttl, db).ops);
            && Stored(d', m, cmd.primary, cmd.startTs, cmd.ttl)
            && (forall k :: k != m.key ==>
                  && LockAt(d', k) == LockAt(d, k)
                  && Lookup(d'.values, (k, cmd.startTs)) == Lookup(d.values, (k, cmd.startTs)))
  {
    var s, next := cmd.startTs, PrewriteStep(acc, m, cmd.primary, cmd.startTs, cmd.ttl, db);
    var lock := PutLock(m.key, LockFor(m, cmd.primary, s, cmd.ttl));
    var value := if m.op.OpPut? then PutValue(m.key, s, m.value) else DeleteValue(m.key, s);
    ApplyTwo(db, acc.ops, value, lock);
    assert next.ops == acc.ops + [value] + [lock];
  }

  lemma {:induction false} GatherStores(cmd: Command, db: Db, n: nat, i: nat)
    requires cmd.Prewrite? && i < n <= |cmd.mutations|
    requires forall j :: 0 <= j < n ==> PrewriteReady(db, cmd.mutations[j], cmd.startTs)
    requires forall j :: i < j < n ==> cmd.mutations[j].key != cmd.mutations[i].key
    ensures Stored(ApplyAll(db, Gather(cmd, db, n).ops), cmd.mutations[i], cmd.primary, cmd.startTs, cmd.ttl)
  {
    var m := cmd.mutations[n - 1];
    assert Items(cmd)[n - 1] == PrewriteKey(m);
    PrewriteGathers(cmd, db, n - 1);
    StepStores(cmd, db, Gather(cmd, db, n - 1), m);
    if i < n - 1 { GatherStores(cmd, db, n - 1, i); }
  }

  /** After a successful prewrite the last mutation of every key is in store. */
  lemma {:induction false} PrewriteAfter(cmd: Command, db: Db, i: nat)
    requires cmd.Prewrite? && ReplyTo(cmd, db) == Ok && IsLast(cmd.mutations, i)
    ensures Stored(After(cmd, db), cmd.mutations[i], cmd.primary, cmd.startTs, cmd.ttl)
  {
    var ms := cmd.mutations;
    PrewriteSucceedsIff(ms, cmd.primary, cmd.startTs, cmd.ttl, db);
    forall j | 0 <= j < |ms| ensures PrewriteReady(db, ms[j], cmd.startTs) {
      assert ms[j] in ms;
    }
    GatherStores(cmd, db, |ms|, i);
  }

  /** Every other lock and value and all records are as before; a prewrite that fails changes
      nothing. */
  lemma {:induction false} PrewriteLeaves(cmd: Command, db: Db, v: Version)
    requires cmd.Prewrite?
    ensures After(cmd, db).writes == db.writes
    ensures v.0 !in Keys(cmd) ==> LockAt(After(cmd, db), v.0) == LockAt(db, v.0)
    ensures v.0 !in Keys(cmd) || v.1 != cmd.startTs ==> Lookup(After(cmd, db).values, v) == Lookup(db.values, v)
    ensures ReplyTo(cmd, db) != Ok ==> After(cmd, db) == db
  {
    PrewriteSucceedsIff(cmd.mutations, cmd.primary, cmd.startTs, cmd.ttl, db);
    if Writes(Final(cmd, db)) {
      forall x: Version ensures WriteAt(After(cmd, db), x) == WriteAt(db, x) { WriteAfter(cmd, db, x); }
      SameRecords(db, After(cmd, db));
      ValueAfter(cmd, db, v);
      if v.0 !in Keys(cmd) { LockOfOthers(cmd, db, v.0); }
    }
  }

  lemma {:induction false} SameRecords(db: Db, db': Db)
    requires forall v: Version :: WriteAt(db', v) == WriteAt(db, v)
    ensures db'.writes == db.writes
  {
    assert forall v :: v in db.writes ==> WriteAt(db', v) == Some(db.writes[v]);
    assert forall v :: v in db'.writes ==> WriteAt(db, v) == Some(db'.writes[v]);
  }

  lemma {:induction false} LockOfOthers(cmd: Command, db: Db, k: Key)
    requires Writes(Final(cmd, db)) && k !in Keys(cmd)
    ensures LockAt(After(cmd, db), k) == LockAt(db, k)
  {
    var ops := Final(cmd, db).ops;
    GatherAllowed(cmd, db, |Items(cmd)|);
    forall i | 0 <= i < |ops| ensures !OnLock(ops[i], k) { assert Allowed(cmd, db, ops[i]); }
    LockKept(db, ops, k);
  }

  // ---- Readers meanwhile ----

  /** The lock and the value that a transaction has on `k` stay as they are through every run of
      other transactions. */
  lemma {:induction false} OwnDataKept(db: Db, cmds: seq<Command>, k: Key, s: U64)
    requires LockedBy(db, k, s) && forall i :: 0 <= i < |cmds| ==> cmds[i].startTs != s
    ensures LockAt(RunAll(db, cmds), k) == LockAt(db, k)
    ensures Lookup(RunAll(db, cmds).values, (k, s)) == Lookup(db.values, (k, s))
    decreases |cmds|
  {
    if |cmds| > 0 {
      LockSurvives(cmds[0], db, k, s);
      if Writes(Final(cmds[0], db)) { ValueAfter(cmds[0], db, (k, s)); }
      OwnDataKept(After(cmds[0], db), cmds[1..], k, s);
    }
  }

  lemma {:induction false} PrewriteLocks(cmd: Command, db: Db, k: Key) returns (i: nat)
    requires cmd.Prewrite? && ReplyTo(cmd, db) == Ok && k in Keys(cmd)
    ensures IsLast(cmd.mutations, i) && cmd.mutations[i].key == k
    ensures Stored(After(cmd, db), cmd.mutations[i], cmd.primary, cmd.startTs, cmd.ttl)
  {
    var j :| 0 <= j < |Keys(cmd)| && Keys(cmd)[j] == k;
    i := LastExists(cmd.mutations, j);
    PrewriteAfter(cmd, db, i);
  }

  /** From a successful prewrite on, and through every run in which nothing ends the transaction,
      a get of one of its keys by anybody else reports a lock of the transaction: the one just
      placed, if the transaction itself is not heard of again. Its own get is answered. */
  lemma {:induction false} PrewrittenIsReported(cmd: Command, db: Db, cmds: seq<Command>, k: Key, t: U64)
    requires cmd.Prewrite? && ReplyTo(cmd, db) == Ok && k in Keys(cmd)
    requires forall i :: 0 <= i < |cmds| ==> !Ends(cmds[i], cmd.startTs)
    ensures var answer := Get(RunAll(After(cmd, db), cmds), k, t);
            && (t != cmd.startTs ==> answer.LockError? && answer.lock.ts == cmd.startTs)
            && (t == cmd.startTs ==> answer.Answer?)
            && (t != cmd.startTs && (forall i :: 0 <= i < |cmds| ==> cmds[i].startTs != cmd.startTs) ==>
                  exists i: nat :: IsLast(cmd.mutations, i) && cmd.mutations[i].key == k
                    && answer == LockError(LockFor(cmd.mutations[i], cmd.primary, cmd.startTs, cmd.ttl)))
  {
    var i := PrewriteLocks(cmd, db, k);
    LockHeldOverRun(After(cmd, db), cmds, k, cmd.startTs);
    if forall j :: 0 <= j < |cmds| ==> cmds[j].startTs != cmd.startTs {
      OwnDataKept(After(cmd, db), cmds, k, cmd.startTs);
    }
  }

  // ---- Readers afterwards ----

  /** A command that commits `k` at a time with no newer record up to `t` makes a get at `t` answer
      what the lock stood for. */
  lemma {:induction false} CommittedIsRead(cmd: Command, db: Db, k: Key, t: U64)
    requires Commits(cmd) && Writes(Final(cmd, db)) && k in Keys(cmd) && LockedBy(db, k, cmd.startTs)
    requires cmd.commitTs <= t && forall c :: cmd.commitTs < c <= t ==> (k, c) !in db.writes
    ensures Get(After(cmd, db), k, t) == Answer(LockedValue(db, k))
  {
    MarkIsRead(cmd, db, k, t);
    LockAfter(cmd, db, k);
    ValueAfter(cmd, db, (k, cmd.startTs));
  }

  /** Two-phase commit, end to end. A transaction is prewritten; any commands of other
      transactions follow; then some of its keys are committed at `c`. That commit goes through,
      and a get at `t >= c` of such a key, with no newer record up to `t`, answers what the last
      mutation of the key says: its value for a put, nothing for a delete. */
  lemma {:induction false} CommittedWriteIsRead(cmd: Command, db: Db, cmds: seq<Command>, keys: seq<Key>, c: U64,
                                                i: nat, t: U64)
    requires cmd.Prewrite? && ReplyTo(cmd, db) == Ok && IsLast(cmd.mutations, i)
    requires forall j :: 0 <= j < |cmds| ==> cmds[j].startTs != cmd.startTs
    requires (forall k :: k in keys ==> k in Keys(cmd)) && cmd.mutations[i].key in keys && c <= t
    requires forall c' :: c < c' <= t ==> (cmd.mutations[i].key, c') !in RunAll(After(cmd, db), cmds).writes
    ensures var d, commit := RunAll(After(cmd, db), cmds), Commit(keys, cmd.startTs, c);
            && ReplyTo(commit, d) == Ok
            && Get(After(commit, d), cmd.mutations[i].key, t) == Answer(ValueFor(cmd.mutations[i]))
  {
    var s, m, d := cmd.startTs, cmd.mutations[i], RunAll(After(cmd, db), cmds);
    forall k | k in keys ensures CommitReady(d, k, s, c) {
      var j := PrewriteLocks(cmd, db, k);
      OwnDataKept(After(cmd, db), cmds, k, s);
    }
    CommitSucceedsIff(keys, s, c, d);
    PrewriteAfter(cmd, db, i);
    OwnDataKept(After(cmd, db), cmds, m.key, s);
    CommittedIsRead(Commit(keys, s, c), d, m.key, t);
  }

  lemma {:induction false} ResolveGathers(cmd: Command, db: Db, n: nat)
    requires cmd.Resolve? && n <= |Items(cmd)|
    ensures var acc := Gather(cmd, db, n); !acc.stopped && acc.errors == [] && acc.reply == Ok
  {
    if n > 0 { ResolveGathers(cmd, db, n - 1); }
  }

  /** The same when somebody else resolves the locks of the transaction at `c`: it need not know
      the keys. */
  lemma {:induction false} ResolvedWriteIsRead(cmd: Command, db: Db, cmds: seq<Command>, c: U64, i: nat, t: U64)
    requires cmd.Prewrite? && ReplyTo(cmd, db) == Ok && IsLast(cmd.mutations, i)
    requires forall j :: 0 <= j < |cmds| ==> cmds[j].startTs != cmd.startTs
    requires 0 < c <= t
    requires forall c' :: c < c' <= t ==> (cmd.mutations[i].key, c') !in RunAll(After(cmd, db), cmds).writes
    ensures var d := RunAll(After(cmd, db), cmds);
            Get(After(ResolveLock(d, cmd.startTs, c), d), cmd.mutations[i].key, t) == Answer(ValueFor(cmd.mutations[i]))
  {
    var s, m, d := cmd.startTs, cmd.mutations[i], RunAll(After(cmd, db), cmds);
    var resolve := ResolveLock(d, s, c);
    PrewriteAfter(cmd, db, i);
    OwnDataKept(After(cmd, db), cmds, m.key, s);
    ResolveGathers(resolve, d, |Items(resolve)|);
    assert LockedBy(d, m.key, s);
    CommittedIsRead(resolve, d, m.key, t);
  }
}
