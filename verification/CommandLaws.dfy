/** What every command can and cannot change. */
module CommandLaws {
  import opened Codec
  import opened Options
  import opened MvccModel
  import opened MvccTxns
  import opened Commands

  // ---- A batch, location by location ----

  predicate OnLock(op: Op, k: Key) {
    (op.PutLock? || op.DeleteLock?) && op.key == k
  }

  predicate OnWrite(op: Op, v: Version) {
    op.PutWrite? && (op.key, op.ts) == v
  }

  predicate OnValue(op: Op, v: Version) {
    (op.PutValue? || op.DeleteValue?) && (op.key, op.ts) == v
  }

  function LockAt(db: Db, k: Key): Option<Lock> {
    if k in db.locks then Some(db.locks[k]) else None
  }

  function WriteAt(db: Db, v: Version): Option<Write> {
    if v in db.writes then Some(db.writes[v]) else None
  }

  lemma {:induction false} LockKept(db: Db, ops: seq<Op>, k: Key)
    requires forall i :: 0 <= i < |ops| ==> !OnLock(ops[i], k)
    ensures LockAt(ApplyAll(db, ops), k) == LockAt(db, k)
  {
    if |ops| > 0 { LockKept(db, ops[..|ops| - 1], k); }
  }

  lemma {:induction false} WriteKept(db: Db, ops: seq<Op>, v: Version)
    requires forall i :: 0 <= i < |ops| ==> !OnWrite(ops[i], v)
    ensures WriteAt(ApplyAll(db, ops), v) == WriteAt(db, v)
  {
    if |ops| > 0 { WriteKept(db, ops[..|ops| - 1], v); }
  }

  lemma {:induction false} ValueKept(db: Db, ops: seq<Op>, v: Version)
    requires forall i :: 0 <= i < |ops| ==> !OnValue(ops[i], v)
    ensures Lookup(ApplyAll(db, ops).values, v) == Lookup(db.values, v)
  {
    if |ops| > 0 { ValueKept(db, ops[..|ops| - 1], v); }
  }

  /** Changes of one location that all say the same leave exactly that. */
  lemma {:induction false} LockDropped(db: Db, ops: seq<Op>, k: Key)
    requires DeleteLock(k) in ops
    requires forall i :: 0 <= i < |ops| && OnLock(ops[i], k) ==> ops[i] == DeleteLock(k)
    ensures LockAt(ApplyAll(db, ops), k) == None
  {
    var n := |ops| - 1;
    if ops[n] != DeleteLock(k) {
      assert DeleteLock(k) in ops[..n];
      LockDropped(db, ops[..n], k);
    }
  }

  lemma {:induction false} WriteSet(db: Db, ops: seq<Op>, v: Version, w: Write)
    requires PutWrite(v.0, v.1, w) in ops
    requires forall i :: 0 <= i < |ops| && OnWrite(ops[i], v) ==> ops[i] == PutWrite(v.0, v.1, w)
    ensures WriteAt(ApplyAll(db, ops), v) == Some(w)
  {
    var n := |ops| - 1;
    if ops[n] != PutWrite(v.0, v.1, w) {
      assert PutWrite(v.0, v.1, w) in ops[..n];
      WriteSet(db, ops[..n], v, w);
    }
  }

  lemma {:induction false} ValueDropped(db: Db, ops: seq<Op>, v: Version)
    requires DeleteValue(v.0, v.1) in ops
    requires forall i :: 0 <= i < |ops| && OnValue(ops[i], v) ==> ops[i] == DeleteValue(v.0, v.1)
    ensures Lookup(ApplyAll(db, ops).values, v) == None
  {
    var n := |ops| - 1;
    if ops[n] != DeleteValue(v.0, v.1) {
      assert DeleteValue(v.0, v.1) in ops[..n];
      ValueDropped(db, ops[..n], v);
    }
  }

  lemma {:induction false} ApplyAllAppend(db: Db, a: seq<Op>, b: seq<Op>)
    ensures ApplyAll(db, a + b) == ApplyAll(ApplyAll(db, a), b)
  {
    if |b| == 0 {
      assert a + b == a;
    } else {
      assert (a + b)[..|a + b| - 1] == a + b[..|b| - 1];
      ApplyAllAppend(db, a, b[..|b| - 1]);
    }
  }

  // ---- The changes each command buffers ----

  /** The only changes a command may buffer, judged by the data it read. */
  predicate Allowed(cmd: Command, db: Db, op: Op) {
    var s := cmd.startTs;
    && op.key in Keys(cmd)
    && match cmd
       case Prewrite(_, _, _, _) =>
         && !LockedByOther(db, op.key, s)
         && ((op.PutLock? && op.lock.ts == s) || ((op.PutValue? || op.DeleteValue?) && op.ts == s))
       case Commit(_, _, c) =>
         LockedBy(db, op.key, s) && (op == DeleteLock(op.key)
                                     || op == PutWrite(op.key, c, Write(s, db.locks[op.key].kind)))
       case BatchRollback(_, _) =>
         && !LockedByOther(db, op.key, s)
         && (op == DeleteLock(op.key) || op == PutWrite(op.key, s, RollbackRecord(s)) || op == DeleteValue(op.key, s))
       case CheckStatus(_, _, _) =>
         && !LockedByOther(db, op.key, s)
         && (op == DeleteLock(op.key) || op == PutWrite(op.key, s, RollbackRecord(s)) ||
             (op == DeleteValue(op.key, s) && LockedBy(db, op.key, s)))
       case Resolve(_, _, c) =>
         && LockedBy(db, op.key, s)
         && if c > 0 then op == DeleteLock(op.key) || op == PutWrite(op.key, c, Write(s, db.locks[op.key].kind))
            else
              op == DeleteLock(op.key) || op == PutWrite(op.key, s, RollbackRecord(s)) || op == DeleteValue(op.key, s)
  }

  lemma {:induction false} ItemFits(cmd: Command, i: nat)
    requires i < |Items(cmd)|
    ensures Fits(cmd, Items(cmd)[i]) && KeyOf(Items(cmd)[i]) in Keys(cmd)
  {
    match cmd
    case Prewrite(ms, _, _, _) => assert Keys(cmd)[i] == ms[i].key;
    case Commit(ks, _, _) => assert KeyOf(Items(cmd)[i]) == if i < |ks| then ks[i] else ks[i - |ks|];
    case BatchRollback(ks, _) => assert KeyOf(Items(cmd)[i]) == ks[i];
    case CheckStatus(k, _, _) =>
    case Resolve(ks, _, _) => assert KeyOf(Items(cmd)[i]) == ks[i];
  }

  /** Each turn only adds changes, and only allowed ones. */
  lemma {:induction false} StepAllowed(cmd: Command, db: Db, acc: Acc, item: Item)
    requires Fits(cmd, item) && KeyOf(item) in Keys(cmd)
    requires forall i :: 0 <= i < |acc.ops| ==> Allowed(cmd, db, acc.ops[i])
    ensures var acc' := Step(cmd, acc, item, db);
            && acc.ops <= acc'.ops
            && forall i :: 0 <= i < |acc'.ops| ==> Allowed(cmd, db, acc'.ops[i])
  {
  }

  lemma {:induction false} GatherAllowed(cmd: Command, db: Db, n: nat)
    requires n <= |Items(cmd)|
    ensures forall i :: 0 <= i < |Gather(cmd, db, n).ops| ==> Allowed(cmd, db, Gather(cmd, db, n).ops[i])
  {
    if n > 0 {
      GatherAllowed(cmd, db, n - 1);
      ItemFits(cmd, n - 1);
      StepAllowed(cmd, db, Gather(cmd, db, n - 1), Items(cmd)[n - 1]);
    }
  }

  lemma {:induction false} StepGrows(cmd: Command, db: Db, acc: Acc, item: Item)
    requires Fits(cmd, item)
    ensures var acc' := Step(cmd, acc, item, db);
            acc.ops <= acc'.ops && acc.errors <= acc'.errors && (acc.stopped ==> acc'.stopped)
  {
  }

  /** What was buffered by turn `n` is still buffered at the end. */
  lemma {:induction false} GatherGrows(cmd: Command, db: Db, n: nat, m: nat)
    requires n <= m <= |Items(cmd)|
    ensures Gather(cmd, db, n).ops <= Gather(cmd, db, m).ops
    ensures Gather(cmd, db, n).errors <= Gather(cmd, db, m).errors
    ensures Gather(cmd, db, n).stopped ==> Gather(cmd, db, m).stopped
    decreases m
  {
    if n < m {
      GatherGrows(cmd, db, n, m - 1);
      ItemFits(cmd, m - 1);
      StepGrows(cmd, db, Gather(cmd, db, m - 1), Items(cmd)[m - 1]);
    }
  }

  /** A command that has stopped has gathered all it ever will. */
  lemma {:induction false} StoppedStays(cmd: Command, db: Db, n: nat, m: nat)
    requires n <= m <= |Items(cmd)| && Gather(cmd, db, n).stopped
    ensures Gather(cmd, db, m) == Gather(cmd, db, n)
    decreases m
  {
    if n < m { StoppedStays(cmd, db, n, m - 1); }
  }

  /** The changes a command that writes must have buffered for `k`. */
  predicate Due(cmd: Command, db: Db, k: Key, op: Op) {
    var s := cmd.startTs;
    match cmd
    case Prewrite(_, _, _, _) => false
    case Commit(_, _, c) =>
      LockedBy(db, k, s) && (op == DeleteLock(k) || op == PutWrite(k, c, Write(s, db.locks[k].kind)))
    case BatchRollback(_, _) =>
      op == PutWrite(k, s, RollbackRecord(s)) || op == DeleteValue(k, s) || (LockedBy(db, k, s) && op == DeleteLock(k))
    case CheckStatus(_, _, _) =>
      op == PutWrite(k, s, RollbackRecord(s))
      || (LockedBy(db, k, s) && (op == DeleteValue(k, s) || op == DeleteLock(k)))
    case Resolve(_, _, c) =>
      && LockedBy(db, k, s)
      && if c > 0 then op == DeleteLock(k) || op == PutWrite(k, c, Write(s, db.locks[k].kind))
         else op == PutWrite(k, s, RollbackRecord(s)) || op == DeleteValue(k, s) || op == DeleteLock(k)
  }

  /** The turn that handles `k`. */
  lemma {:induction false} ItemFor(cmd: Command, k: Key) returns (i: nat)
    requires k in Keys(cmd)
    ensures i < |Items(cmd)| && KeyOf(Items(cmd)[i]) == k && !Items(cmd)[i].CommitCheck?
  {
    i :| 0 <= i < |Keys(cmd)| && Keys(cmd)[i] == k;
    match cmd
    case Prewrite(ms, _, _, _) => assert Items(cmd)[i] == PrewriteKey(ms[i]);
    case Commit(ks, _, _) =>
      i := |ks| + i;
      assert Items(cmd)[i] == CommitKey(k);
    case BatchRollback(ks, _) => assert Items(cmd)[i] == RollbackKey(k);
    case CheckStatus(_, _, _) =>
    case Resolve(ks, _, _) => assert Items(cmd)[i] == ResolveKey(k);
  }

  lemma {:induction false} StepEmitsDue(cmd: Command, db: Db, acc: Acc, item: Item, op: Op)
    requires Fits(cmd, item) && !item.CommitCheck? && Due(cmd, db, KeyOf(item), op)
    requires !Step(cmd, acc, item, db).stopped
    ensures op in Step(cmd, acc, item, db).ops
  {
  }

  lemma {:induction false} DueIsBuffered(cmd: Command, db: Db, k: Key, op: Op)
    requires k in Keys(cmd) && Writes(Final(cmd, db)) && Due(cmd, db, k, op)
    ensures op in Final(cmd, db).ops
  {
    var i := ItemFor(cmd, k);
    GatherGrows(cmd, db, i + 1, |Items(cmd)|);
    TurnEmitsDue(cmd, db, i, op);
  }

  lemma {:induction false} TurnEmitsDue(cmd: Command, db: Db, i: nat, op: Op)
    requires i < |Items(cmd)| && !Items(cmd)[i].CommitCheck? && Due(cmd, db, KeyOf(Items(cmd)[i]), op)
    requires !Gather(cmd, db, i + 1).stopped
    ensures op in Gather(cmd, db, i + 1).ops
  {
    ItemFits(cmd, i);
    StepEmitsDue(cmd, db, Gather(cmd, db, i), Items(cmd)[i], op);
  }

  // ---- The data after a command, location by location ----

  /** A command that turns the locks of `startTs` into records at `commitTs`. */
  predicate Commits(cmd: Command) {
    cmd.Commit? || (cmd.Resolve? && cmd.commitTs > 0)
  }

  /** A command that undoes the writes of `startTs`. */
  predicate RollsBack(cmd: Command) {
    cmd.BatchRollback? || cmd.CheckStatus? || (cmd.Resolve? && cmd.commitTs == 0)
  }

  /** The keys whose record a writing command sets. */
  predicate Marks(cmd: Command, db: Db, k: Key) {
    k in Keys(cmd) && ((cmd.BatchRollback? || cmd.CheckStatus?) || LockedBy(db, k, cmd.startTs))
  }

  function MarkTs(cmd: Command): U64 {
    if Commits(cmd) then cmd.commitTs else cmd.startTs
  }

  function Mark(cmd: Command, db: Db, k: Key): Write {
    if Commits(cmd) && k in db.locks then Write(cmd.startTs, db.locks[k].kind) else RollbackRecord(cmd.startTs)
  }

  /** Records after a command: one new mark per key at the command's timestamp,
      all other records as before. */
  lemma {:induction false} WriteAfter(cmd: Command, db: Db, v: Version)
    requires Writes(Final(cmd, db))
    ensures !cmd.Prewrite? && Marks(cmd, db, v.0) && v.1 == MarkTs(cmd) ==>
              WriteAt(After(cmd, db), v) == Some(Mark(cmd, db, v.0))
    ensures cmd.Prewrite? || !Marks(cmd, db, v.0) || v.1 != MarkTs(cmd) ==>
              WriteAt(After(cmd, db), v) == WriteAt(db, v)
  {
    var ops := Final(cmd, db).ops;
    GatherAllowed(cmd, db, |Items(cmd)|);
    if !cmd.Prewrite? && Marks(cmd, db, v.0) && v.1 == MarkTs(cmd) {
      var w := Mark(cmd, db, v.0);
      DueIsBuffered(cmd, db, v.0, PutWrite(v.0, v.1, w));
      forall i | 0 <= i < |ops| && OnWrite(ops[i], v) ensures ops[i] == PutWrite(v.0, v.1, w) {
        assert Allowed(cmd, db, ops[i]);
      }
      WriteSet(db, ops, v, w);
    } else {
      forall i | 0 <= i < |ops| ensures !OnWrite(ops[i], v) {
        assert Allowed(cmd, db, ops[i]);
      }
      WriteKept(db, ops, v);
    }
  }

  /** Locks after a command other than a prewrite: those of its own transaction on
      its keys are gone, all others stay. */
  lemma {:induction false} LockAfter(cmd: Command, db: Db, k: Key)
    requires Writes(Final(cmd, db)) && !cmd.Prewrite?
    ensures LockAt(After(cmd, db), k) ==
            if k in Keys(cmd) && LockedBy(db, k, cmd.startTs) then None else LockAt(db, k)
  {
    var ops := Final(cmd, db).ops;
    GatherAllowed(cmd, db, |Items(cmd)|);
    if k in Keys(cmd) && LockedBy(db, k, cmd.startTs) {
      DueIsBuffered(cmd, db, k, DeleteLock(k));
      forall i | 0 <= i < |ops| && OnLock(ops[i], k) ensures ops[i] == DeleteLock(k) {
        assert Allowed(cmd, db, ops[i]);
      }
      LockDropped(db, ops, k);
    } else if k in Keys(cmd) && k !in db.locks {
      LocksOnlyShrink(cmd, db, |Items(cmd)|, k);
    } else {
      forall i | 0 <= i < |ops| ensures !OnLock(ops[i], k) {
        assert Allowed(cmd, db, ops[i]);
      }
      LockKept(db, ops, k);
    }
  }

  lemma {:induction false} OnlyDeletesLock(db: Db, ops: seq<Op>, k: Key)
    requires k !in db.locks
    requires forall i :: 0 <= i < |ops| && OnLock(ops[i], k) ==> ops[i] == DeleteLock(k)
    ensures k !in ApplyAll(db, ops).locks
  {
    if |ops| > 0 { OnlyDeletesLock(db, ops[..|ops| - 1], k); }
  }

  lemma {:induction false} LocksOnlyShrink(cmd: Command, db: Db, n: nat, k: Key)
    requires n <= |Items(cmd)| && !cmd.Prewrite? && k !in db.locks
    ensures k !in ApplyAll(db, Gather(cmd, db, n).ops).locks
  {
    var ops := Gather(cmd, db, n).ops;
    GatherAllowed(cmd, db, n);
    forall i | 0 <= i < |ops| && OnLock(ops[i], k) ensures ops[i] == DeleteLock(k) {
      assert Allowed(cmd, db, ops[i]);
    }
    OnlyDeletesLock(db, ops, k);
  }

  /** Values after a command: commits keep them all, rollbacks drop their own. */
  lemma {:induction false} ValueAfter(cmd: Command, db: Db, v: Version)
    requires Writes(Final(cmd, db))
    ensures v.1 != cmd.startTs || v.0 !in Keys(cmd) || Commits(cmd) ==>
              Lookup(After(cmd, db).values, v) == Lookup(db.values, v)
    ensures cmd.CheckStatus? && !LockedBy(db, v.0, cmd.startTs) ==>
              Lookup(After(cmd, db).values, v) == Lookup(db.values, v)
    ensures cmd.Resolve? && !LockedBy(db, v.0, cmd.startTs) ==>
              Lookup(After(cmd, db).values, v) == Lookup(db.values, v)
    ensures RollsBack(cmd) && v.0 in Keys(cmd) && v.1 == cmd.startTs
            && (cmd.BatchRollback? || LockedBy(db, v.0, v.1)) ==>
              Lookup(After(cmd, db).values, v) == None
  {
    var ops := Final(cmd, db).ops;
    GatherAllowed(cmd, db, |Items(cmd)|);
    if RollsBack(cmd) && v.0 in Keys(cmd) && v.1 == cmd.startTs && (cmd.BatchRollback? || LockedBy(db, v.0, v.1)) {
      DueIsBuffered(cmd, db, v.0, DeleteValue(v.0, v.1));
      forall i | 0 <= i < |ops| && OnValue(ops[i], v) ensures ops[i] == DeleteValue(v.0, v.1) {
        assert Allowed(cmd, db, ops[i]);
      }
      ValueDropped(db, ops, v);
    } else if !cmd.Prewrite? || v.1 != cmd.startTs || v.0 !in Keys(cmd) {
      forall i | 0 <= i < |ops| ensures !OnValue(ops[i], v) {
        assert Allowed(cmd, db, ops[i]);
      }
      ValueKept(db, ops, v);
    }
  }
}
