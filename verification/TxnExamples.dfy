/** Runs of commands from the empty store on which expected properties fail. */
module TxnExamples {
  import opened Codec
  import opened Options
  import opened MvccModel
  import opened Scanners
  import opened Commands
  import opened TxnRuns
  import opened TxnStatus

  function PutOne(k: Key, s: U64, value: Value): Command {
    Prewrite([Mutation(OpPut, k, value)], k, s, 10)
  }

  lemma {:induction false} OneTurn(cmd: Command, db: Db, item: Item)
    requires Items(cmd) == [item] && Fits(cmd, item)
    ensures Final(cmd, db) == Step(cmd, EMPTY, item, db)
  {
    assert Gather(cmd, db, 0) == EMPTY;
  }

  lemma {:induction false} PutOneRuns(db: Db, k: Key, s: U64, value: Value)
    requires k !in db.locks
    ensures ReplyTo(PutOne(k, s, value), db) == Ok
    ensures After(PutOne(k, s, value), db) ==
            Db(db.locks[k := Lock(k, s, 10, Put)], db.writes, db.values[(k, s) := value])
  {
    var cmd := PutOne(k, s, value);
    var a, b := PutValue(k, s, value), PutLock(k, Lock(k, s, 10, Put));
    assert Items(cmd) == [PrewriteKey(cmd.mutations[0])];
    OneTurn(cmd, db, PrewriteKey(cmd.mutations[0]));
    assert Final(cmd, db).ops == [] + [a] + [b];
    ApplyTwo(db, [], a, b);
  }

  lemma {:induction false} CommitOneRuns(db: Db, k: Key, s: U64, c: U64)
    requires LockedBy(db, k, s) && db.locks[k].kind.Put?
    ensures ReplyTo(Commit([k], s, c), db) == Ok
    ensures After(Commit([k], s, c), db) == Db(db.locks - {k}, db.writes[(k, c) := Write(s, Put)], db.values)
  {
    var cmd := Commit([k], s, c);
    var a, b := PutWrite(k, c, Write(s, Put)), DeleteLock(k);
    assert Items(cmd) == [CommitCheck(k), CommitKey(k)];
    assert Gather(cmd, db, 1) == EMPTY;
    assert Final(cmd, db).ops == [] + [a] + [b];
    ApplyTwo(db, [], a, b);
  }

  lemma {:induction false} RollbackOneRuns(db: Db, k: Key, s: U64)
    requires k !in db.locks
    ensures ReplyTo(BatchRollback([k], s), db) == Ok
    ensures After(BatchRollback([k], s), db) ==
            Db(db.locks, db.writes[(k, s) := RollbackRecord(s)], db.values - {(k, s)})
  {
    var cmd := BatchRollback([k], s);
    var a, b := PutWrite(k, s, RollbackRecord(s)), DeleteValue(k, s);
    assert Items(cmd) == [RollbackKey(k)];
    OneTurn(cmd, db, RollbackKey(k));
    assert Final(cmd, db).ops == [] + [a] + [b];
    ApplyTwo(db, [], a, b);
  }

  lemma {:induction false} RunTwo(db: Db, a: Command, b: Command)
    ensures RunAll(db, [a, b]) == After(b, After(a, db))
  {
    assert [a, b][1..] == [b] && [b][1..] == [];
    assert RunAll(After(a, db), [b]) == RunAll(After(b, After(a, db)), []);
  }

  lemma {:induction false} RunThree(db: Db, a: Command, b: Command, c: Command)
    ensures RunAll(db, [a, b, c]) == After(c, After(b, After(a, db)))
  {
    assert [a, b, c][1..] == [b, c];
    RunTwo(After(a, db), b, c);
  }

  const KEY: Key := [1]
  const OLDER: Value := [7]
  const NEWER: Value := [8]

  /** A transaction that writes the key and commits. */
  function OneWrite(s: U64, c: U64): seq<Command> {
    [PutOne(KEY, s, OLDER), Commit([KEY], s, c)]
  }

  lemma {:induction false} WriteRuns(db: Db, s: U64, c: U64)
    requires KEY !in db.locks
    ensures RunAll(db, OneWrite(s, c)) ==
            Db(db.locks, db.writes[(KEY, c) := Write(s, Put)], db.values[(KEY, s) := OLDER])
  {
    var a, b := PutOne(KEY, s, OLDER), Commit([KEY], s, c);
    RunTwo(db, a, b);
    PutOneRuns(db, KEY, s, OLDER);
    CommitOneRuns(After(a, db), KEY, s, c);
    assert After(a, db).locks - {KEY} == db.locks;
  }

  /** Transaction 1 writes the key and commits at 3. */
  function OneCommitted(): Db {
    Db(map[], map[(KEY, 3) := Write(1, Put)], map[(KEY, 1) := OLDER])
  }

  lemma {:induction false} OneCommittedRuns()
    ensures RunAll(NOTHING, OneWrite(1, 3)) == OneCommitted()
  {
    WriteRuns(NOTHING, 1, 3);
  }

  /** Transaction 2 has committed at 5. */
  function BothCommitted(): Db {
    Db(map[], map[(KEY, 3) := Write(1, Put), (KEY, 5) := Write(2, Put)], map[(KEY, 1) := OLDER, (KEY, 2) := NEWER])
  }

  /** No conflict is found: transaction 2 is prewritten and commits over the record that
      transaction 1 committed at 3, after the start of transaction 2. */
  lemma {:induction false} ConflictGoesUnseen()
    ensures var db := RunAll(NOTHING, OneWrite(1, 3));
            && db == OneCommitted() && (KEY, 3) in db.writes && ReplyTo(PutOne(KEY, 2, NEWER), db) == Ok
            && ReplyTo(Commit([KEY], 2, 5), After(PutOne(KEY, 2, NEWER), db)) == Ok
            && After(Commit([KEY], 2, 5), After(PutOne(KEY, 2, NEWER), db)) ==
               BothCommitted()
  {
    OneCommittedRuns();
    var db := OneCommitted();
    PutOneRuns(db, KEY, 2, NEWER);
    var locked := After(PutOne(KEY, 2, NEWER), db);
    CommitOneRuns(locked, KEY, 2, 5);
    assert locked.locks - {KEY} == map[];
  }

  /** The newest record of the key points at a value that is gone; an older one does not. */
  lemma {:induction false} ShowsThrough(db: Db, k: Key, older: U64, newer: U64, t: U64)
    requires older < newer <= t && (k, older) in db.writes && (k, newer) in db.writes && k !in db.locks
    requires forall c :: older < c <= t && c != newer ==> (k, c) !in db.writes
    requires Dangling(db, k, newer) && db.writes[(k, older)].kind.Put? && !Dangling(db, k, older)
    ensures Get(db, k, t) == Answer(None) && ScanRead(db, k, t) == Some(db.values[(k, db.writes[(k, older)].startTs)])
  {
    LatestUnique(db.writes, k, t, newer);
    LatestUnique(db.writes, k, newer - 1, older);
  }

  /** A run after which a scan and a get differ: transaction 2 has committed over
      transaction 1 and is then rolled back. Its record loses its value; a get at 10 answers
      nothing, a scan steps over the record and shows the value of transaction 1. */
  lemma {:induction false} ScanShowsOlderValue()
    ensures var one := RunAll(NOTHING, OneWrite(1, 3));
            var db := RunAll(one, [PutOne(KEY, 2, NEWER), Commit([KEY], 2, 5), BatchRollback([KEY], 2)]);
            Get(db, KEY, 10) == Answer(None) && ScanRead(db, KEY, 10) == Some(OLDER)
  {
    OneCommittedRuns();
    ConflictGoesUnseen();
    RunThree(OneCommitted(), PutOne(KEY, 2, NEWER), Commit([KEY], 2, 5), BatchRollback([KEY], 2));
    RollbackStrips();
    StrippedShowsThrough();
  }

  lemma {:induction false} RollbackStrips()
    ensures After(BatchRollback([KEY], 2), BothCommitted()) == Stripped()
  {
    RollbackOneRuns(BothCommitted(), KEY, 2);
  }

  /** Both have committed, and the value of transaction 2 is gone. */
  function Stripped(): Db {
    Db(map[], map[(KEY, 3) := Write(1, Put), (KEY, 5) := Write(2, Put), (KEY, 2) := RollbackRecord(2)],
       map[(KEY, 1) := OLDER])
  }

  lemma {:induction false} StrippedShowsThrough()
    ensures Get(Stripped(), KEY, 10) == Answer(None) && ScanRead(Stripped(), KEY, 10) == Some(OLDER)
  {
    ShowsThrough(Stripped(), KEY, 3, 5, 10);
  }

  /** Reads are not repeatable across rollbacks of an earlier start: a value committed at 5
      is gone for a reader at 10 once transaction 7, which never wrote, is rolled back. */
  lemma {:induction false} RollbackHidesCommittedValue()
    ensures var db := RunAll(NOTHING, OneWrite(3, 5));
            && Get(db, KEY, 10) == Answer(Some(OLDER))
            && ReplyTo(BatchRollback([KEY], 7), db) == Ok
            && Get(After(BatchRollback([KEY], 7), db), KEY, 10) == Answer(None)
  {
    WriteRuns(NOTHING, 3, 5);
    var db := RunAll(NOTHING, OneWrite(3, 5));
    LatestUnique(db.writes, KEY, 10, 5);
    RollbackOneRuns(db, KEY, 7);
    LatestUnique(After(BatchRollback([KEY], 7), db).writes, KEY, 10, 7);
  }

  /** A transaction that has committed at a later timestamp than its start is reported as rolled
      back, and a rollback record is left at its start. */
  lemma {:induction false} CommittedReportedRolledBack(now: U64)
    ensures var db := RunAll(NOTHING, OneWrite(1, 3));
            && Get(db, KEY, 3) == Answer(Some(OLDER))
            && ReplyTo(CheckStatus(KEY, 1, now), db) == StatusRolledBack(false)
            && After(CheckStatus(KEY, 1, now), db) == db.(writes := db.writes[(KEY, 1) := RollbackRecord(1)])
  {
    OneCommittedRuns();
    LatestUnique(OneCommitted().writes, KEY, 3, 3);
    UnlockedStatus(OneCommitted(), KEY, 1, now);
  }
}
