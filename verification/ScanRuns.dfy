/** What scans show after a run of commands, against point reads. */
module ScanRuns {
  import opened ByteStrings
  import opened Codec
  import opened Options
  import opened MvccModel
  import opened Scanners
  import opened TxnRuns

  /** `rows` lists point reads of `[start, end)` at `t`: increasing keys, each with the
      value a get would answer, and no key with a value left out in between. */
  ghost predicate ReadPrefix(db: Db, start: Key, end: Option<Key>, t: U64, rows: seq<Row>) {
    && (forall i, j :: 0 <= i < j < |rows| ==> Less(rows[i].0, rows[j].0))
    && (forall i :: 0 <= i < |rows| ==> InRange(start, end, rows[i].0) && Read(db, rows[i].0, t) == Some(rows[i].1))
    && (forall k, i {:trigger Listed(rows, k), rows[i]} ::
          0 <= i < |rows| && InRange(start, end, k) && Read(db, k, t).Some? && Less(k, rows[i].0) ==> Listed(rows, k))
  }

  /** No key of the range with a value is missing from `rows`. */
  ghost predicate ReadComplete(db: Db, start: Key, end: Option<Key>, t: U64, rows: seq<Row>) {
    && ReadPrefix(db, start, end, t, rows)
    && forall k {:trigger Listed(rows, k)} :: InRange(start, end, k) && Read(db, k, t).Some? ==> Listed(rows, k)
  }

  /** With every put record backed by its value, the rows of a scan are exactly the keys
      whose point read gives a value, each with that value. */
  lemma {:induction false} RowsArePointReads(db: Db, start: Key, end: Option<Key>, t: U64, rows: seq<Row>)
    requires RecordsBacked(db)
    ensures ScanPrefix(db, start, end, t, rows) <==> ReadPrefix(db, start, end, t, rows)
    ensures ScanComplete(db, start, end, t, rows) <==> ReadComplete(db, start, end, t, rows)
  {
    forall k: Key ensures ScanRead(db, k, t) == Read(db, k, t) {
      ScanIsPointRead(db, k, t);
    }
  }

  /** Over every orderly run from the empty store, a scan of what it leaves shows point
      reads, and all of them if it is complete. */
  lemma {:induction false} ScanIsReadsOverRun(events: seq<Event>, start: Key, end: Option<Key>, t: U64, rows: seq<Row>)
    requires Orderly(events) && ScanPrefix(RunEvents(NOTHING, events), start, end, t, rows)
    ensures ReadPrefix(RunEvents(NOTHING, events), start, end, t, rows)
    ensures ScanComplete(RunEvents(NOTHING, events), start, end, t, rows) ==>
              ReadComplete(RunEvents(NOTHING, events), start, end, t, rows)
  {
    RecordsBackedOverRun(events);
    RowsArePointReads(RunEvents(NOTHING, events), start, end, t, rows);
  }
}
