/** Laws over every run of commands. */
module TxnRuns {
  import opened Codec
  import opened Options
  import opened MvccModel
  import opened MvccTxns
  import opened Commands
  import opened CommandLaws
  import opened TxnLaws

  /** The data after running the commands one after the other. */
  function RunAll(db: Db, cmds: seq<Command>): Db
    decreases |cmds|
  {
    if |cmds| == 0 then db else RunAll(After(cmds[0], db), cmds[1..])
  }

  // ---- Locks belong to their transaction ----

  /** The commands that may end the lock of transaction `s`. */
  predicate Ends(cmd: Command, s: U64) {
    !cmd.Prewrite? && cmd.startTs == s
  }

  lemma {:induction false} PutsKeepOwner(db: Db, ops: seq<Op>, k: Key, s: U64)
    requires LockedBy(db, k, s)
    requires forall i :: 0 <= i < |ops| && OnLock(ops[i], k) ==> ops[i].PutLock? && ops[i].lock.ts == s
    ensures LockedBy(ApplyAll(db, ops), k, s)
  {
    if |ops| > 0 { PutsKeepOwner(db, ops[..|ops| - 1], k, s); }
  }

  lemma {:induction false} LockSurvives(cmd: Command, db: Db, k: Key, s: U64)
    requires LockedBy(db, k, s) && !Ends(cmd, s)
    ensures LockedBy(After(cmd, db), k, s)
    ensures cmd.startTs != s ==> LockAt(After(cmd, db), k) == LockAt(db, k)
  {
    if Writes(Final(cmd, db)) {
      if cmd.Prewrite? {
        var ops := Final(cmd, db).ops;
        GatherAllowed(cmd, db, |Items(cmd)|);
        forall i | 0 <= i < |ops| && OnLock(ops[i], k)
          ensures cmd.startTs == s && ops[i].PutLock? && ops[i].lock.ts == s
        {
          assert Allowed(cmd, db, ops[i]);
        }
        PutsKeepOwner(db, ops, k, s);
        if cmd.startTs != s { LockKept(db, ops, k); }
      } else {
        LockAfter(cmd, db, k);
      }
    }
  }

  /** A lock stays, in the hands of its transaction, through every run without a
      commit, rollback, status check or resolve of that transaction. */
  lemma {:induction false} LockHeldOverRun(db: Db, cmds: seq<Command>, k: Key, s: U64)
    requires LockedBy(db, k, s) && forall i :: 0 <= i < |cmds| ==> !Ends(cmds[i], s)
    ensures LockedBy(RunAll(db, cmds), k, s)
    decreases |cmds|
  {
    if |cmds| > 0 {
      LockSurvives(cmds[0], db, k, s);
      LockHeldOverRun(After(cmds[0], db), cmds[1..], k, s);
    }
  }

  lemma {:induction false} ApplyTwo(db: Db, ops: seq<Op>, a: Op, b: Op)
    ensures ApplyAll(db, ops + [a] + [b]) == Apply(Apply(ApplyAll(db, ops), a), b)
  {
    assert (ops + [a] + [b])[..|ops| + 1] == ops + [a] && (ops + [a])[..|ops|] == ops;
  }

  /** Locking `k` anew after storing its value, or after dropping it for a delete. */
  lemma {:induction false} LockingKeepsBacked(d: Db, k: Key, s: U64, value: Value, put: Lock, del: Lock)
    requires LocksBacked(d) && put.ts == s && !del.kind.Put?
    ensures LocksBacked(Apply(Apply(d, PutValue(k, s, value)), PutLock(k, put)))
    ensures LocksBacked(Apply(Apply(d, DeleteValue(k, s)), PutLock(k, del)))
  {
  }

  lemma {:induction false} PrewriteStepBacked(cmd: Command, db: Db, acc: Acc, m: Mutation)
    requires cmd.Prewrite? && LocksBacked(ApplyAll(db, acc.ops))
    ensures LocksBacked(ApplyAll(db, PrewriteStep(acc, m, cmd.primary, cmd.startTs, cmd.ttl, db).ops))
  {
    var s, k, d := cmd.startTs, m.key, ApplyAll(db, acc.ops);
    var put, del := Lock(cmd.primary, s, cmd.ttl, Put), Lock(cmd.primary, s, cmd.ttl, Delete);
    var next := PrewriteStep(acc, m, cmd.primary, s, cmd.ttl, db);
    LockingKeepsBacked(d, k, s, m.value, put, del);
    if next.ops == acc.ops {
    } else if m.op.OpPut? {
      ApplyTwo(db, acc.ops, PutValue(k, s, m.value), PutLock(k, put));
      assert next.ops == acc.ops + [PutValue(k, s, m.value)] + [PutLock(k, put)];
    } else {
      ApplyTwo(db, acc.ops, DeleteValue(k, s), PutLock(k, del));
      assert next.ops == acc.ops + [DeleteValue(k, s)] + [PutLock(k, del)];
    }
  }

  lemma {:induction false} PrewriteBacked(cmd: Command, db: Db, n: nat)
    requires cmd.Prewrite? && n <= |Items(cmd)| && LocksBacked(db)
    ensures LocksBacked(ApplyAll(db, Gather(cmd, db, n).ops))
  {
    if n > 0 {
      PrewriteBacked(cmd, db, n - 1);
      assert Items(cmd)[n - 1] == PrewriteKey(cmd.mutations[n - 1]);
      PrewriteStepBacked(cmd, db, Gather(cmd, db, n - 1), cmd.mutations[n - 1]);
    }
  }

  /** Every command keeps the value of every put lock in store. */
  lemma {:induction false} BackedAfter(cmd: Command, db: Db)
    requires LocksBacked(db)
    ensures LocksBacked(After(cmd, db))
  {
    if Writes(Final(cmd, db)) {
      if cmd.Prewrite? {
        PrewriteBacked(cmd, db, |Items(cmd)|);
      } else {
        var db' := After(cmd, db);
        forall k | k in db'.locks && db'.locks[k].kind.Put? ensures (k, db'.locks[k].ts) in db'.values {
          LockAfter(cmd, db, k);
          ValueAfter(cmd, db, (k, db'.locks[k].ts));
        }
      }
    }
  }

  lemma {:induction false} BackedOverRun(db: Db, cmds: seq<Command>)
    requires LocksBacked(db)
    ensures LocksBacked(RunAll(db, cmds))
    decreases |cmds|
  {
    if |cmds| > 0 {
      BackedAfter(cmds[0], db);
      BackedOverRun(After(cmds[0], db), cmds[1..]);
    }
  }

  // ---- Rollback is final ----

  predicate PrewritesKey(cmd: Command, k: Key, s: U64) {
    cmd.Prewrite? && cmd.startTs == s && k in Keys(cmd)
  }

  lemma {:induction false} ForeignPuts(db: Db, ops: seq<Op>, k: Key, s: U64)
    requires !LockedBy(db, k, s)
    requires forall i :: 0 <= i < |ops| && OnLock(ops[i], k) && ops[i].PutLock? ==> ops[i].lock.ts != s
    ensures !LockedBy(ApplyAll(db, ops), k, s)
  {
    if |ops| > 0 { ForeignPuts(db, ops[..|ops| - 1], k, s); }
  }

  lemma {:induction false} StaysUnlocked(cmd: Command, db: Db, k: Key, s: U64)
    requires !LockedBy(db, k, s) && !PrewritesKey(cmd, k, s)
    ensures !LockedBy(After(cmd, db), k, s)
  {
    if Writes(Final(cmd, db)) {
      var ops := Final(cmd, db).ops;
      GatherAllowed(cmd, db, |Items(cmd)|);
      forall i | 0 <= i < |ops| && OnLock(ops[i], k) && ops[i].PutLock? ensures ops[i].lock.ts != s {
        assert Allowed(cmd, db, ops[i]);
      }
      ForeignPuts(db, ops, k, s);
    }
  }

  lemma {:induction false} UnlockedOverRun(db: Db, cmds: seq<Command>, k: Key, s: U64)
    requires !LockedBy(db, k, s) && forall i :: 0 <= i < |cmds| ==> !PrewritesKey(cmds[i], k, s)
    ensures !LockedBy(RunAll(db, cmds), k, s)
    decreases |cmds|
  {
    if |cmds| > 0 {
      StaysUnlocked(cmds[0], db, k, s);
      UnlockedOverRun(After(cmds[0], db), cmds[1..], k, s);
    }
  }

  /** Once any rollback has written for `k` and transaction `s`, and through every
      later run that does not prewrite them again, a commit of `s` that includes `k`
      fails and changes nothing, and no resolve of `s` adds or changes a record of
      `k`. */
  lemma {:induction false} RollbackIsFinal(db: Db, rollback: Command, cmds: seq<Command>, k: Key, keys: seq<Key>,
                                           c: U64, v: Version)
    requires RollsBack(rollback) && k in Keys(rollback) && Writes(Final(rollback, db))
    requires forall i :: 0 <= i < |cmds| ==> !PrewritesKey(cmds[i], k, rollback.startTs)
    ensures var s, db' := rollback.startTs, RunAll(After(rollback, db), cmds);
            && (k in keys && c > s ==> ReplyTo(Commit(keys, s, c), db') != Ok && After(Commit(keys, s, c), db') == db')
            && (v.0 == k ==> WriteAt(After(Resolve(keys, s, c), db'), v) == WriteAt(db', v))
  {
    var s, db' := rollback.startTs, RunAll(After(rollback, db), cmds);
    LockAfter(rollback, db, k);
    UnlockedOverRun(After(rollback, db), cmds, k, s);
    CommitSucceedsIff(keys, s, c, db');
    if k in keys && c > s { assert !CommitReady(db', k, s, c); }
    if v.0 == k && Writes(Final(Resolve(keys, s, c), db')) { WriteAfter(Resolve(keys, s, c), db', v); }
  }

  // ---- Repeatable reads ----

  datatype Event = Exec(cmd: Command) | GetAt(k: Key, t: U64)

  /** The rule under which a command may not disturb an answered read of `k` at `t`:
      commits come later than the read; the transaction whose write the read shows is
      not prewritten again; rollbacks are harmless to it. */
  predicate Respects(cmd: Command, db: Db, k: Key, t: U64) {
    k in Keys(cmd) ==>
      if cmd.Prewrite? then
        Latest(db.writes, k, t).Some? ==> db.writes[(k, Latest(db.writes, k, t).value)].startTs != cmd.startTs
      else if Commits(cmd) then cmd.commitTs > t
      else RollbackHarmless(db, k, cmd.startTs, t)
  }

  lemma {:induction false} RespectKeepsRead(cmd: Command, db: Db, k: Key, t: U64)
    requires Respects(cmd, db, k, t)
    ensures Read(After(cmd, db), k, t) == Read(db, k, t)
  {
    if Writes(Final(cmd, db)) {
      var c := Latest(db.writes, k, t);
      if RollsBack(cmd) && Marks(cmd, db, k) && cmd.startTs <= t {
        RollbackBehind(cmd, db, k, t);
      } else {
        if c.Some? { ValueAfter(cmd, db, (k, db.writes[(k, c.value)].startTs)); }
        if c.Some? && db.writes[(k, c.value)].startTs == cmd.startTs && RollsBack(cmd) && Marks(cmd, db, k) {
          UnmarkedPrefix(cmd, db, k, t);
        } else {
          ReadKept(cmd, db, k, t);
        }
      }
    }
  }

  /** A harmless rollback at or below the read's timestamp: either nothing was shown
      and nothing is, or the record shown is newer and keeps its value. */
  lemma {:induction false} RollbackBehind(cmd: Command, db: Db, k: Key, t: U64)
    requires Writes(Final(cmd, db)) && RollsBack(cmd) && Marks(cmd, db, k) && cmd.startTs <= t
    requires RollbackHarmless(db, k, cmd.startTs, t)
    ensures Read(After(cmd, db), k, t) == Read(db, k, t)
  {
    var s, c, db' := cmd.startTs, Latest(db.writes, k, t), After(cmd, db);
    if c.None? || c.value <= s {
      MarkIsRead(cmd, db, k, t);
    } else {
      WriteAfter(cmd, db, (k, c.value));
      forall c' | c.value < c' <= t ensures (k, c') !in db'.writes {
        WriteAfter(cmd, db, (k, c'));
      }
      LatestUnique(db'.writes, k, t, c.value);
      ValueAfter(cmd, db, (k, db.writes[(k, c.value)].startTs));
    }
  }

  function RunEvents(db: Db, events: seq<Event>): Db
    decreases |events|
  {
    if |events| == 0 then db
    else
      match events[0]
      case Exec(cmd) => RunEvents(After(cmd, db), events[1..])
      case GetAt(_, _) => RunEvents(db, events[1..])
  }

  /** Every command in the run respects all reads answered before it. */
  predicate Respectful(db: Db, events: seq<Event>, answered: set<Version>)
    decreases |events|
  {
    |events| == 0 ||
    match events[0]
    case Exec(cmd) =>
      (forall r :: r in answered ==> Respects(cmd, db, r.0, r.1)) && Respectful(After(cmd, db), events[1..], answered)
    case GetAt(k, t) => Respectful(db, events[1..], if Get(db, k, t).Answer? then answered + {(k, t)} else answered)
  }

  lemma {:induction false} AnsweredReadStands(db: Db, events: seq<Event>, answered: set<Version>, k: Key, t: U64,
                                              j: nat)
    requires Respectful(db, events, answered) && (k, t) in answered && j <= |events|
    ensures Read(RunEvents(db, events[..j]), k, t) == Read(db, k, t)
    decreases |events|
  {
    if j > 0 {
      assert events[..j][1..] == events[1..][..j - 1];
      match events[0]
      case Exec(cmd) =>
        RespectKeepsRead(cmd, db, k, t);
        AnsweredReadStands(After(cmd, db), events[1..], answered, k, t, j - 1);
      case GetAt(k', t') =>
        AnsweredReadStands(db, events[1..], if Get(db, k', t').Answer? then answered + {(k', t')}
                           else answered, k, t, j - 1);
    }
  }

  /** In a run whose commands respect the reads answered before them, every later get at
      `t` gives the same answer or reports a lock. */
  lemma {:induction false} RespectedReadsRepeat(db: Db, events: seq<Event>, answered: set<Version>, i: nat, j: nat)
    requires Respectful(db, events, answered) && i < j <= |events| && events[i].GetAt?
    ensures var GetAt(k, t) := events[i];
            var first, later := Get(RunEvents(db, events[..i]), k, t), Get(RunEvents(db, events[..j]), k, t);
            first.Answer? ==> later == first || later.LockError?
    decreases i
  {
    var GetAt(k, t) := events[i];
    assert events[..j][1..] == events[1..][..j - 1];
    if i == 0 {
      assert events[..0] == [];
      if Get(db, k, t).Answer? {
        AnsweredReadStands(db, events[1..], answered + {(k, t)}, k, t, j - 1);
      }
    } else {
      assert events[..i][1..] == events[1..][..i - 1];
      match events[0]
      case Exec(cmd) => RespectedReadsRepeat(After(cmd, db), events[1..], answered, i - 1, j - 1);
      case GetAt(k', t') =>
        RespectedReadsRepeat(db, events[1..], if Get(db, k', t').Answer? then answered + {(k', t')}
                             else answered, i - 1, j - 1);
    }
  }

  // ---- Rules on the run itself ----

  const NOTHING := Db(map[], map[], map[])

  /** What an event may not do after an earlier one. A transaction is not prewritten again
      once it has been committed or rolled back, and not rolled back once it has been
      committed. Commit timestamps, and the start timestamps of rollbacks, lie above every
      timestamp at which one of their keys was read. */
  predicate MayFollow(earlier: Event, later: Event) {
    later.Exec? ==>
      match earlier
      case Exec(x) =>
        && (later.cmd.Prewrite? && x.startTs == later.cmd.startTs ==> x.Prewrite?)
        && (RollsBack(later.cmd) && Commits(x) ==> x.startTs != later.cmd.startTs)
      case GetAt(k, t) =>
        k in Keys(later.cmd) ==>
          && (Commits(later.cmd) ==> later.cmd.commitTs > t)
          && (RollsBack(later.cmd) ==> later.cmd.startTs > t)
  }

  predicate Orderly(events: seq<Event>) {
    forall i, j :: 0 <= i < j < |events| ==> MayFollow(events[i], events[j])
  }

  /** Some command before has committed, or has rolled back, transaction `s`. */
  predicate CommittedIn(past: seq<Event>, s: U64) {
    exists i :: 0 <= i < |past| && past[i].Exec? && Commits(past[i].cmd) && past[i].cmd.startTs == s
  }

  predicate RolledBackIn(past: seq<Event>, s: U64) {
    exists i :: 0 <= i < |past| && past[i].Exec? && RollsBack(past[i].cmd) && past[i].cmd.startTs == s
  }

  /** The record at `v` was left by a command of the run. */
  predicate Traceable(db: Db, past: seq<Event>, v: Version) {
    v in db.writes ==>
      var w := db.writes[v];
      CommittedIn(past, w.startTs) || (v.1 == w.startTs && w.kind.Rollback? && RolledBackIn(past, w.startTs))
  }

  /** Every record was left by a command of the run. */
  ghost predicate Traced(db: Db, past: seq<Event>) {
    forall v {:trigger Traceable(db, past, v)} :: Traceable(db, past, v)
  }

  lemma {:induction false} PastGrows(past: seq<Event>, e: Event, s: U64)
    ensures CommittedIn(past, s) ==> CommittedIn(past + [e], s)
    ensures RolledBackIn(past, s) ==> RolledBackIn(past + [e], s)
    ensures e.Exec? && e.cmd.startTs == s && Commits(e.cmd) ==> CommittedIn(past + [e], s)
    ensures e.Exec? && e.cmd.startTs == s && RollsBack(e.cmd) ==> RolledBackIn(past + [e], s)
  {
    var all := past + [e];
    assert all[|past|] == e && forall i :: 0 <= i < |past| ==> all[i] == past[i];
  }

  lemma {:induction false} TraceableAfter(cmd: Command, db: Db, past: seq<Event>, v: Version)
    requires Traced(db, past)
    ensures Traceable(After(cmd, db), past + [Exec(cmd)], v)
  {
    assert Traceable(db, past, v);
    if v in db.writes { PastGrows(past, Exec(cmd), db.writes[v].startTs); }
    PastGrows(past, Exec(cmd), cmd.startTs);
    if Writes(Final(cmd, db)) { WriteAfter(cmd, db, v); }
  }

  ghost function Happen(db: Db, e: Event): Db {
    match e
    case Exec(cmd) => After(cmd, db)
    case GetAt(_, _) => db
  }

  lemma {:induction false} TracedAfter(db: Db, past: seq<Event>, e: Event)
    requires Traced(db, past)
    ensures Traced(Happen(db, e), past + [e])
  {
    forall v: Version ensures Traceable(Happen(db, e), past + [e], v) {
      match e
      case Exec(cmd) => TraceableAfter(cmd, db, past, v);
      case GetAt(_, _) =>
        assert Traceable(db, past, v);
        if v in db.writes { PastGrows(past, e, db.writes[v].startTs); }
    }
  }

  /** After an orderly past, an orderly command respects every earlier read. */
  lemma {:induction false} OrderlyRespects(cmd: Command, db: Db, past: seq<Event>, k: Key, t: U64)
    requires Traced(db, past) && (forall i :: 0 <= i < |past| ==> MayFollow(past[i], Exec(cmd))) && GetAt(k, t) in past
    ensures Respects(cmd, db, k, t)
  {
    var i :| 0 <= i < |past| && past[i] == GetAt(k, t);
    assert MayFollow(past[i], Exec(cmd));
    var c := Latest(db.writes, k, t);
    if c.Some? { assert Traceable(db, past, (k, c.value)); }
  }

  lemma {:induction false} OrderlyIsRespectful(db: Db, past: seq<Event>, events: seq<Event>, answered: set<Version>)
    requires Traced(db, past) && Orderly(past + events) && forall r :: r in answered ==> GetAt(r.0, r.1) in past
    ensures Respectful(db, events, answered)
    decreases |events|
  {
    if |events| > 0 {
      var e, all := events[0], past + events;
      assert all[|past|] == e && forall i :: 0 <= i < |past| ==> all[i] == past[i];
      assert past + [e] + events[1..] == all;
      assert forall x :: x in past ==> x in past + [e];
      TracedAfter(db, past, e);
      match e
      case Exec(cmd) =>
        forall r | r in answered ensures Respects(cmd, db, r.0, r.1) { OrderlyRespects(cmd, db, past, r.0, r.1); }
        OrderlyIsRespectful(After(cmd, db), past + [e], events[1..], answered);
      case GetAt(k, t) =>
        OrderlyIsRespectful(db, past + [e], events[1..], if Get(db, k, t).Answer? then answered + {(k, t)}
                            else answered);
    }
  }

  /** Repeatable snapshots. Over every run from the empty store in which no transaction is
      prewritten after its end or rolled back after its commit, and commits and rollbacks
      come later than the reads of their keys: once a get at `t` has answered, every later
      get at `t` gives the same answer or reports a lock. */
  lemma {:induction false} SnapshotIsRepeatable(events: seq<Event>, i: nat, j: nat)
    requires Orderly(events) && i < j <= |events| && events[i].GetAt?
    ensures var GetAt(k, t) := events[i];
            var first, later := Get(RunEvents(NOTHING, events[..i]), k, t), Get(RunEvents(NOTHING, events[..j]), k, t);
            first.Answer? ==> later == first || later.LockError?
  {
    assert [] + events == events;
    OrderlyIsRespectful(NOTHING, [], events, {});
    RespectedReadsRepeat(NOTHING, events, {}, i, j);
  }

  // ---- No record loses its value ----

  /** Every put record has its value in store. */
  predicate RecordsBacked(db: Db) {
    forall v :: v in db.writes && db.writes[v].kind.Put? ==> (v.0, db.writes[v].startTs) in db.values
  }

  lemma {:induction false} RecordBackedAfter(cmd: Command, db: Db, past: seq<Event>, v: Version)
    requires Traced(db, past) && LocksBacked(db) && RecordsBacked(db)
    requires forall i :: 0 <= i < |past| ==> MayFollow(past[i], Exec(cmd))
    requires v in After(cmd, db).writes && After(cmd, db).writes[v].kind.Put?
    ensures (v.0, After(cmd, db).writes[v].startTs) in After(cmd, db).values
  {
    if Writes(Final(cmd, db)) {
      WriteAfter(cmd, db, v);
      ValueAfter(cmd, db, (v.0, After(cmd, db).writes[v].startTs));
      assert Traceable(db, past, v);
    }
  }

  lemma {:induction false} OrderlyRunBacked(db: Db, past: seq<Event>, events: seq<Event>)
    requires Traced(db, past) && LocksBacked(db) && RecordsBacked(db) && Orderly(past + events)
    ensures RecordsBacked(RunEvents(db, events))
    decreases |events|
  {
    if |events| > 0 {
      var e, all := events[0], past + events;
      assert all[|past|] == e && forall i :: 0 <= i < |past| ==> all[i] == past[i];
      assert past + [e] + events[1..] == all;
      TracedAfter(db, past, e);
      match e
      case Exec(cmd) =>
        BackedAfter(cmd, db);
        forall v | v in After(cmd, db).writes && After(cmd, db).writes[v].kind.Put?
          ensures (v.0, After(cmd, db).writes[v].startTs) in After(cmd, db).values
        {
          RecordBackedAfter(cmd, db, past, v);
        }
        OrderlyRunBacked(After(cmd, db), past + [e], events[1..]);
      case GetAt(_, _) => OrderlyRunBacked(db, past + [e], events[1..]);
    }
  }

  /** Over every orderly run from the empty store, every put record keeps its value. */
  lemma {:induction false} RecordsBackedOverRun(events: seq<Event>)
    requires Orderly(events)
    ensures RecordsBacked(RunEvents(NOTHING, events))
  {
    assert [] + events == events;
    OrderlyRunBacked(NOTHING, [], events);
  }
}
