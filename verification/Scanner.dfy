/** Range scans over the encoded versions. */
module Scanners {
  import opened ByteStrings
  import opened Codec
  import opened Options
  import opened MvccModel
  import opened KvIterator
  import opened MvccTxns

  type Row = (Key, Value)

  /** The value a scan reports for `k`: like a point read, except that a put record
      whose value is missing is stepped over in favour of the next older record. */
  function ScanRead(db: Db, k: Key, t: U64): Option<Value>
    decreases t
  {
    match Latest(db.writes, k, t)
    case None => None
    case Some(c) =>
      var w := db.writes[(k, c)];
      if !w.kind.Put? then None
      else if (k, w.startTs) in db.values then Some(db.values[(k, w.startTs)])
      else if c == 0 then None
      else ScanRead(db, k, c - 1)
  }

  /** A put record of `k` that points at no stored value. */
  predicate Dangling(db: Db, k: Key, c: U64) {
    (k, c) in db.writes && db.writes[(k, c)].kind.Put? && (k, db.writes[(k, c)].startTs) !in db.values
  }

  predicate InRange(start: Key, end: Option<Key>, k: Key) {
    AtMost(start, k) && (end.Some? ==> Less(k, end.value))
  }

  ghost predicate Listed(rows: seq<Row>, k: Key) {
    exists i :: 0 <= i < |rows| && rows[i].0 == k
  }

  /** `rows` is what a scan of `[start, end)` at `t` has reported so far: increasing
      keys, each with its scan value, and no visible key left out in between. */
  ghost predicate ScanPrefix(db: Db, start: Key, end: Option<Key>, t: U64, rows: seq<Row>) {
    && (forall i, j :: 0 <= i < j < |rows| ==> Less(rows[i].0, rows[j].0))
    && (forall i :: 0 <= i < |rows| ==> InRange(start, end, rows[i].0) && ScanRead(db, rows[i].0, t) == Some(rows[i].1))
    && (forall k, i {:trigger Listed(rows, k), rows[i]} ::
          0 <= i < |rows| && InRange(start, end, k) && ScanRead(db, k, t).Some? && Less(k, rows[i].0) ==>
            Listed(rows, k))
  }

  /** Nothing visible in the range is missing from `rows`. */
  ghost predicate ScanComplete(db: Db, start: Key, end: Option<Key>, t: U64, rows: seq<Row>) {
    && ScanPrefix(db, start, end, t, rows)
    && forall k {:trigger Listed(rows, k)} :: InRange(start, end, k) && ScanRead(db, k, t).Some? ==> Listed(rows, k)
  }

  // ---- The scan value, item by item ----

  /** The scan value of `k` as the items from place `n` on determine it. */
  ghost function ScanItems(db: Db, items: seq<Option<Version>>, n: nat, k: Key, t: U64): Option<Value>
    requires forall i :: 0 <= i < |items| && items[i].Some? ==> items[i].value in db.writes
    decreases |items| - n
  {
    if n >= |items| then None
    else if items[n].None? || items[n].value.0 != k || items[n].value.1 > t then ScanItems(db, items, n + 1, k, t)
    else
      var w := db.writes[items[n].value];
      if !w.kind.Put? then None
      else if (k, w.startTs) in db.values then Some(db.values[(k, w.startTs)])
      else ScanItems(db, items, n + 1, k, t)
  }

  ghost predicate ItemsOfDb(db: Db, items: seq<Option<Version>>) {
    && (forall i :: 0 <= i < |items| && items[i].Some? ==> items[i].value in db.writes)
    && (forall v :: v in db.writes ==> Some(v) in items)
    && (forall i, j :: 0 <= i < j < |items| && items[i].Some? && items[j].Some? ==>
        Before(items[i].value, items[j].value))
  }

  /** Walking the items from `n` gives the scan value at `u`, when `u` is the newest
      version of `k` that can still be ahead. */
  lemma {:induction false} ScanItemsIsScanRead(db: Db, items: seq<Option<Version>>, n: nat, k: Key, t: U64, u: U64)
    requires ItemsOfDb(db, items) && n <= |items| && u <= t
    requires forall i :: 0 <= i < n && items[i].Some? && items[i].value.0 == k ==> items[i].value.1 > u
    requires forall i :: n <= i < |items| && items[i].Some? && items[i].value.0 == k ==>
               items[i].value.1 <= u || items[i].value.1 > t
    ensures ScanItems(db, items, n, k, t) == ScanRead(db, k, u)
    decreases |items| - n
  {
    if n == |items| {
      NoneAtAll(db, items, k, u);
    } else if items[n].None? || items[n].value.0 != k || items[n].value.1 > t {
      ScanItemsIsScanRead(db, items, n + 1, k, t, u);
    } else {
      var c := items[n].value.1;
      assert items[n].value == (k, c);
      FirstIsLatest(db, items, n, k, u);
      if Dangling(db, k, c) {
        OlderBehind(db, items, n, k);
        if c > 0 {
          ScanItemsIsScanRead(db, items, n + 1, k, t, c - 1);
        } else {
          NoMoreItems(db, items, n + 1, k, t);
        }
      }
    }
  }

  lemma {:induction false} NoneAtAll(db: Db, items: seq<Option<Version>>, k: Key, u: U64)
    requires ItemsOfDb(db, items)
    requires forall i :: 0 <= i < |items| && items[i].Some? && items[i].value.0 == k ==> items[i].value.1 > u
    ensures Latest(db.writes, k, u).None?
  {
    forall c | 0 <= c <= u ensures (k, c) !in db.writes {
      assert (k, c) in db.writes ==> Some((k, c)) in items;
    }
  }

  lemma {:induction false} OlderBehind(db: Db, items: seq<Option<Version>>, n: nat, k: Key)
    requires ItemsOfDb(db, items) && n < |items| && items[n].Some? && items[n].value.0 == k
    ensures forall i :: n < i < |items| && items[i].Some? && items[i].value.0 == k ==>
              items[i].value.1 < items[n].value.1
    ensures forall i :: 0 <= i < n && items[i].Some? && items[i].value.0 == k ==> items[i].value.1 > items[n].value.1
  {
    LessIrreflexive(k);
    assert forall i :: n < i < |items| && items[i].Some? ==> Before(items[n].value, items[i].value);
    assert forall i :: 0 <= i < n && items[i].Some? ==> Before(items[i].value, items[n].value);
  }

  lemma {:induction false} FirstIsLatest(db: Db, items: seq<Option<Version>>, n: nat, k: Key, u: U64)
    requires ItemsOfDb(db, items) && n < |items| && items[n].Some? && items[n].value.0 == k && items[n].value.1 <= u
    requires forall i :: 0 <= i < n && items[i].Some? && items[i].value.0 == k ==> items[i].value.1 > u
    ensures Latest(db.writes, k, u) == Some(items[n].value.1)
  {
    var c := items[n].value.1;
    assert items[n].value == (k, c);
    LessIrreflexive(k);
    forall c' | c < c' <= u ensures (k, c') !in db.writes {
      assert (k, c') in db.writes ==> Some((k, c')) in items;
    }
    LatestUnique(db.writes, k, u, c);
  }

  lemma {:induction false} NoMoreItems(db: Db, items: seq<Option<Version>>, n: nat, k: Key, t: U64)
    requires forall i :: 0 <= i < |items| && items[i].Some? ==> items[i].value in db.writes
    requires forall i :: n <= i < |items| && items[i].Some? ==> items[i].value.0 != k || items[i].value.1 > t
    ensures ScanItems(db, items, n, k, t) == None
    decreases |items| - n
  {
    if n < |items| { NoMoreItems(db, items, n + 1, k, t); }
  }

  lemma {:induction false} SomeItemAhead(db: Db, items: seq<Option<Version>>, n: nat, k: Key, t: U64) returns (i: nat)
    requires forall i :: 0 <= i < |items| && items[i].Some? ==> items[i].value in db.writes
    requires ScanItems(db, items, n, k, t).Some?
    ensures n <= i < |items| && items[i].Some? && items[i].value.0 == k
    decreases |items| - n
  {
    if items[n].Some? && items[n].value.0 == k {
      i := n;
    } else {
      i := SomeItemAhead(db, items, n + 1, k, t);
    }
  }

  // ---- Scans against point reads ----

  /** `c0` holds a stored value and every record above it up to `u` dangles. */
  ghost predicate ShownThrough(db: Db, k: Key, c0: U64, u: U64) {
    && c0 <= u && (k, c0) in db.writes && db.writes[(k, c0)].kind.Put? && !Dangling(db, k, c0)
    && forall c :: c0 < c <= u && (k, c) in db.writes ==> Dangling(db, k, c)
  }

  lemma {:induction false} ScanReadSomeIff(db: Db, k: Key, u: U64)
    ensures ScanRead(db, k, u).Some? <==> exists c0 :: ShownThrough(db, k, c0, u)
    decreases u
  {
    var c := Latest(db.writes, k, u);
    if c.Some? {
      if Dangling(db, k, c.value) && c.value > 0 {
        var below := c.value - 1;
        ScanReadSomeIff(db, k, below);
        if c0 :| ShownThrough(db, k, c0, below) {
          assert ShownThrough(db, k, c0, u);
        }
        if c0 :| ShownThrough(db, k, c0, u) {
          assert ShownThrough(db, k, c0, below);
        }
      } else if db.writes[(k, c.value)].kind.Put? && !Dangling(db, k, c.value) {
        assert ShownThrough(db, k, c.value, u);
      }
    }
  }

  /** A scan and a point read of `k` differ exactly when the newest record dangles
      and a stored value shows through from behind it. */
  lemma {:induction false} ScanAgreesIff(db: Db, k: Key, t: U64)
    ensures ScanRead(db, k, t) == Read(db, k, t) <==>
            !(Latest(db.writes, k, t).Some? && Dangling(db, k, Latest(db.writes, k, t).value) &&
              exists c0 :: ShownThrough(db, k, c0, t))
  {
    ScanReadSomeIff(db, k, t);
  }

  /** With every put record backed by its value, scans and point reads agree. */
  lemma {:induction false} ScanIsPointRead(db: Db, k: Key, t: U64)
    requires forall v :: v in db.writes ==> !Dangling(db, v.0, v.1)
    ensures ScanRead(db, k, t) == Read(db, k, t)
  {
    if Latest(db.writes, k, t).Some? {
      assert (k, Latest(db.writes, k, t).value) in db.writes;
    }
  }

  // ---- The state of a scan ----

  /** What a scan is about, fixed when it starts. */
  datatype Range = Range(db: Db, items: seq<Option<Version>>, start: Key, end: Option<Key>, t: U64)

  /** Where it stands: the cursor, the key handled last, the rows reported. */
  datatype Progress = Progress(pos: nat, current: Option<Key>, rows: seq<Row>)

  ghost predicate Inside(g: Range, k: Key) {
    InRange(g.start, g.end, k)
  }

  /** The scan has moved past `k`. */
  predicate Settled(p: Progress, k: Key) {
    p.current.Some? && AtMost(k, p.current.value)
  }

  ghost predicate Seen(g: Range, p: Progress, k: Key) {
    exists i :: 0 <= i <= p.pos && i < |g.items| && g.items[i] != None && g.items[i].value.0 == k
  }

  /** Settled keys are reported if visible; the others are still decided by the
      items from the cursor on. */
  ghost predicate Accounted(g: Range, p: Progress, k: Key)
    requires ItemsOfDb(g.db, g.items)
  {
    if Settled(p, k) then ScanRead(g.db, k, g.t).Some? ==> Listed(p.rows, k)
    else ScanRead(g.db, k, g.t) == ScanItems(g.db, g.items, p.pos, k, g.t)
  }

  ghost predicate Invariant(g: Range, p: Progress) {
    && ItemsOfDb(g.db, g.items) && p.pos <= |g.items|
    && (forall i :: p.pos <= i < |g.items| && g.items[i].Some? ==> !Less(g.items[i].value.0, g.start))
    && (p.current.Some? ==> Seen(g, p, p.current.value))
    && (forall i, j :: 0 <= i < j < |p.rows| ==> Less(p.rows[i].0, p.rows[j].0))
    && (forall i :: 0 <= i < |p.rows| ==>
          && Settled(p, p.rows[i].0) && Inside(g, p.rows[i].0)
          && ScanRead(g.db, p.rows[i].0, g.t) == Some(p.rows[i].1))
    && (forall k {:trigger Accounted(g, p, k)} :: Inside(g, k) ==> Accounted(g, p, k))
  }

  /** Whatever stands at the cursor is beyond the key handled last, unless it is
      that very key. */
  lemma {:induction false} CursorBeyondCurrent(g: Range, p: Progress, i: nat)
    requires Invariant(g, p) && p.current.Some? && p.pos <= i < |g.items| && g.items[i].Some?
    requires g.items[i].value.0 != p.current.value
    ensures Less(p.current.value, g.items[i].value.0)
  {
    var j :| 0 <= j <= p.pos && j < |g.items| && g.items[j] != None && g.items[j].value.0 == p.current.value;
    assert j < i;
    assert Before(g.items[j].value, g.items[i].value);
  }

  /** Stray items, items of the handled key, and versions that are too new or
      dangling are stepped over. */
  lemma {:induction false} StepOver(g: Range, p: Progress)
    requires Invariant(g, p) && p.pos < |g.items|
    requires g.items[p.pos].Some? ==>
               || p.current == Some(g.items[p.pos].value.0)
               || g.items[p.pos].value.1 > g.t
               || Dangling(g.db, g.items[p.pos].value.0, g.items[p.pos].value.1)
    ensures Invariant(g, p.(pos := p.pos + 1))
  {
    var p' := p.(pos := p.pos + 1);
    if p.current.Some? {
      var j :| 0 <= j <= p.pos && j < |g.items| && g.items[j] != None && g.items[j].value.0 == p.current.value;
      assert Seen(g, p', p.current.value);
    }
    forall k | Inside(g, k) ensures Accounted(g, p', k) {
      assert Accounted(g, p, k) && (Settled(p, k) <==> Settled(p', k));
      if g.items[p.pos].Some? && g.items[p.pos].value.0 == k {
        assert g.items[p.pos].value == (k, g.items[p.pos].value.1);
      }
    }
  }

  /** Keys between the one handled last and the one at the cursor are invisible. */
  lemma {:induction false} NothingBetween(g: Range, p: Progress, k: Key)
    requires Invariant(g, p) && p.pos < |g.items| && g.items[p.pos].Some?
    requires Inside(g, k) && !Settled(p, k) && Less(k, g.items[p.pos].value.0)
    ensures ScanRead(g.db, k, g.t).None?
  {
    assert Accounted(g, p, k);
    if ScanRead(g.db, k, g.t).Some? {
      var i := SomeItemAhead(g.db, g.items, p.pos, k, g.t);
      LessAsymmetric(k, g.items[p.pos].value.0);
    }
  }

  /** Making the key at the cursor the handled one settles it and all below it. */
  lemma {:induction false} SettleUpTo(g: Range, p: Progress, p': Progress)
    requires Invariant(g, p) && p.pos < |g.items| && g.items[p.pos].Some?
    requires p.current != Some(g.items[p.pos].value.0) && p'.current == Some(g.items[p.pos].value.0)
    requires p.pos <= p'.pos <= p.pos + 1 && p.rows <= p'.rows
    requires Inside(g, g.items[p.pos].value.0) && ScanRead(g.db, g.items[p.pos].value.0, g.t).Some? ==>
               Listed(p'.rows, g.items[p.pos].value.0)
    ensures forall i :: 0 <= i < |p.rows| ==> Settled(p', p.rows[i].0) && Less(p.rows[i].0, g.items[p.pos].value.0)
    ensures forall k {:trigger Accounted(g, p', k)} :: Inside(g, k) ==> Accounted(g, p', k)
  {
    var here := g.items[p.pos].value.0;
    if p.current.Some? { CursorBeyondCurrent(g, p, p.pos); }
    forall i | 0 <= i < |p.rows| ensures Less(p.rows[i].0, here) {
      if p.rows[i].0 != p.current.value { LessTransitive(p.rows[i].0, p.current.value, here); }
    }
    forall k | Inside(g, k) ensures Accounted(g, p', k) {
      assert Accounted(g, p, k);
      if Settled(p, k) {
        if k != p.current.value { LessTransitive(k, p.current.value, here); }
        if Listed(p.rows, k) {
          var i :| 0 <= i < |p.rows| && p.rows[i].0 == k;
          assert p'.rows[i].0 == k;
        }
      } else if Less(k, here) {
        NothingBetween(g, p, k);
      }
    }
  }

  /** A delete or rollback record settles its key as invisible. */
  lemma {:induction false} StepHide(g: Range, p: Progress, v: Version)
    requires Invariant(g, p) && p.pos < |g.items| && g.items[p.pos] == Some(v)
    requires p.current != Some(v.0) && v.1 <= g.t && !g.db.writes[v].kind.Put?
    ensures Invariant(g, p.(pos := p.pos + 1, current := Some(v.0)))
  {
    var p' := p.(pos := p.pos + 1, current := Some(v.0));
    assert Seen(g, p', v.0);
    assert Inside(g, v.0) ==> ScanRead(g.db, v.0, g.t).None? by {
      if Inside(g, v.0) { AtCursorUnsettled(g, p); }
    }
    SettleUpTo(g, p, p');
  }

  lemma {:induction false} AtCursorUnsettled(g: Range, p: Progress)
    requires Invariant(g, p) && p.pos < |g.items| && g.items[p.pos].Some?
    requires p.current != Some(g.items[p.pos].value.0) && Inside(g, g.items[p.pos].value.0)
    ensures ScanRead(g.db, g.items[p.pos].value.0, g.t) == ScanItems(g.db, g.items, p.pos, g.items[p.pos].value.0, g.t)
  {
    var here := g.items[p.pos].value.0;
    assert Accounted(g, p, here);
    if p.current.Some? {
      CursorBeyondCurrent(g, p, p.pos);
      LessAsymmetric(p.current.value, here);
    }
  }

  /** The row a put record stands for. */
  function RowAt(db: Db, v: Version): Row
    requires v in db.writes && (v.0, db.writes[v].startTs) in db.values
  {
    (v.0, db.values[(v.0, db.writes[v].startTs)])
  }

  /** A put record with its value reports a row, leaving the cursor in place. */
  lemma {:induction false} StepEmit(g: Range, p: Progress, v: Version)
    requires Invariant(g, p) && p.pos < |g.items| && g.items[p.pos] == Some(v)
    requires p.current != Some(v.0) && v.1 <= g.t && (g.end.Some? ==> Less(v.0, g.end.value))
    requires g.db.writes[v].kind.Put? && (v.0, g.db.writes[v].startTs) in g.db.values
    ensures Invariant(g, p.(current := Some(v.0), rows := p.rows + [RowAt(g.db, v)]))
  {
    var row := RowAt(g.db, v);
    var p' := p.(current := Some(v.0), rows := p.rows + [row]);
    assert Seen(g, p', v.0);
    LessTotal(g.start, v.0);
    assert Inside(g, v.0);
    AtCursorUnsettled(g, p);
    assert p'.rows[|p.rows|] == row;
    SettleUpTo(g, p, p');
  }

  lemma {:induction false} InvariantGivesPrefix(g: Range, p: Progress)
    requires Invariant(g, p)
    ensures ScanPrefix(g.db, g.start, g.end, g.t, p.rows)
  {
    forall k, i | 0 <= i < |p.rows| && InRange(g.start, g.end, k) && ScanRead(g.db, k, g.t).Some?
      && Less(k, p.rows[i].0)
      ensures Listed(p.rows, k)
    {
      assert Inside(g, k) && Accounted(g, p, k);
      if p.rows[i].0 != p.current.value { LessTransitive(k, p.rows[i].0, p.current.value); }
    }
  }

  /** Nothing visible is left when the items ahead are all out of the range. */
  lemma {:induction false} Finished(g: Range, p: Progress)
    requires Invariant(g, p)
    requires forall i :: p.pos <= i < |g.items| && g.items[i].Some? ==>
               g.end.Some? && !Less(g.items[i].value.0, g.end.value)
    ensures ScanComplete(g.db, g.start, g.end, g.t, p.rows)
  {
    InvariantGivesPrefix(g, p);
    forall k | InRange(g.start, g.end, k) && ScanRead(g.db, k, g.t).Some? ensures Listed(p.rows, k) {
      assert Inside(g, k) && Accounted(g, p, k);
      if !Settled(p, k) { var i := SomeItemAhead(g.db, g.items, p.pos, k, g.t); }
    }
  }

  lemma {:induction false} ItemsOfIterator(it: Iterator<Write>, db: Db)
    requires it.Valid() && it.model == db.writes
    ensures ItemsOfDb(db, it.items)
  {
    forall i | 0 <= i < |it.items| && it.items[i].Some? ensures it.items[i].value in db.writes {
      assert Holds(it.model, it.keys[i], it.items[i]);
    }
    forall i, j | 0 <= i < j < |it.items| && it.items[i].Some? && it.items[j].Some?
      ensures Before(it.items[i].value, it.items[j].value)
    {
      VersionsSorted(it, i, j);
    }
  }

  lemma {:induction false} StartOfScan(g: Range, pos: nat)
    requires ItemsOfDb(g.db, g.items) && pos <= |g.items|
    requires forall i :: 0 <= i < pos && g.items[i].Some? ==> Less(g.items[i].value.0, g.start)
    requires forall i :: pos <= i < |g.items| && g.items[i].Some? ==> !Less(g.items[i].value.0, g.start)
    ensures Invariant(g, Progress(pos, None, []))
  {
    var p := Progress(pos, None, []);
    forall k | Inside(g, k) ensures Accounted(g, p, k) {
      forall i | 0 <= i < pos && g.items[i].Some? ensures g.items[i].value.0 != k {
        LessAsymmetric(g.items[i].value.0, g.start);
      }
      ScanItemsIsScanRead(g.db, g.items, pos, k, g.t, g.t);
    }
  }

  class Scanner {
    const txn: MvccTxn
    const startKey: Key
    const endKey: Option<Key>
    const limit: nat
    const writeIter: Iterator<Write>
    var count: nat
    var currentKey: Option<Key>
    var exhausted: bool
    ghost const scope: Range
    ghost var now: Progress

    /** The store still shows what it showed when the scan began. */
    ghost predicate Fresh()
      reads this, txn.reader
    {
      txn.reader.Valid() && txn.reader.db == scope.db
    }

    ghost predicate Valid()
      reads this, writeIter
    {
      && writeIter.Valid() && writeIter.model == scope.db.writes
      && scope == Range(scope.db, writeIter.items, startKey, endKey, txn.startTs)
      && now.pos == writeIter.pos && now.current == currentKey && |now.rows| == count
      && Invariant(scope, now)
      && (exhausted ==> ScanComplete(scope.db, startKey, endKey, txn.startTs, now.rows))
    }

    constructor (startKey: Key, endKey: Option<Key>, limit: nat, txn: MvccTxn)
      requires txn.reader.Valid()
      ensures Valid() && Fresh() && fresh(writeIter)
      ensures this.txn == txn && this.startKey == startKey && this.endKey == endKey && this.limit == limit
      ensures now.rows == [] && !exhausted
    {
      var it := new Iterator(txn.reader.writeCf, txn.reader.db.writes);
      it.Seek(EncodeKey(startKey, U64_MAX));
      NewestSeek(it, startKey);
      ItemsOfIterator(it, txn.reader.db);
      forall i | it.pos <= i < |it.items| && it.items[i].Some? ensures !Less(it.items[i].value.0, startKey) {
        ItemDecodes(it, i);
      }
      ghost var g := Range(txn.reader.db, it.items, startKey, endKey, txn.startTs);
      StartOfScan(g, it.pos);
      this.txn := txn;
      this.startKey, this.endKey, this.limit := startKey, endKey, limit;
      writeIter := it;
      count, currentKey, exhausted := 0, None, false;
      scope, now := g, Progress(it.pos, None, []);
    }

    method SkipItem()
      requires Valid() && writeIter.AtItem()
      requires var item: Option<Version> := scope.items[now.pos];
               item.Some? ==> || currentKey == Some(item.value.0)
                              || item.value.1 > txn.startTs
                              || Dangling(scope.db, item.value.0, item.value.1)
      modifies this`now, writeIter
      ensures Valid() && now == old(now).(pos := old(now).pos + 1)
    {
      StepOver(scope, now);
      now := now.(pos := now.pos + 1);
      writeIter.Next();
    }

    method HideKey(key: Key, ghost v: Version)
      requires Valid() && writeIter.AtItem() && !exhausted && currentKey != Some(v.0)
      requires scope.items[now.pos] == Some(v) && v.1 <= txn.startTs && v in scope.db.writes
      requires !scope.db.writes[v].kind.Put? && key == v.0
      modifies this`currentKey, this`now, writeIter
      ensures Valid() && now == old(now).(pos := old(now).pos + 1, current := Some(key))
    {
      StepHide(scope, now, v);
      now := now.(pos := now.pos + 1, current := Some(v.0));
      currentKey := Some(key);
      writeIter.Next();
    }

    method EmitRow(row: Row, ghost v: Version)
      requires Valid() && writeIter.AtItem() && !exhausted && currentKey != Some(v.0)
      requires scope.items[now.pos] == Some(v) && v.1 <= txn.startTs && v in scope.db.writes
      requires endKey.Some? ==> Less(v.0, endKey.value)
      requires scope.db.writes[v].kind.Put? && (v.0, scope.db.writes[v].startTs) in scope.db.values
      requires row == RowAt(scope.db, v)
      modifies this`currentKey, this`count, this`now
      ensures Valid() && now == old(now).(current := Some(row.0), rows := old(now).rows + [row])
    {
      StepEmit(scope, now, v);
      now := now.(current := Some(v.0), rows := now.rows + [RowAt(scope.db, v)]);
      currentKey := Some(row.0);
      count := count + 1;
    }

    method Finish()
      requires Valid()
      requires forall i :: now.pos <= i < |scope.items| && scope.items[i].Some? ==>
                 endKey.Some? && !Less(scope.items[i].value.0, endKey.value)
      modifies this`exhausted
      ensures Valid() && exhausted
    {
      Finished(scope, now);
      exhausted := true;
    }

    /** The item under the cursor, as decoding shows it. */
    method Peek() returns (userKey: Option<Key>, version: Option<(U64, Write)>)
      requires Valid() && writeIter.AtItem()
      ensures userKey.Some? ==> DecodeUserKey(writeIter.keys[writeIter.pos]).Decoded? &&
                                DecodeUserKey(writeIter.keys[writeIter.pos]).data == userKey.value
      ensures match scope.items[now.pos]
              case None => version.None?
              case Some(v) => userKey == Some(v.0) && v in scope.db.writes && version == Some((v.1, scope.db.writes[v]))
    {
      var encoded := writeIter.keys[writeIter.pos];
      ItemDecodes(writeIter, writeIter.pos);
      ItemsOfIterator(writeIter, scope.db);
      var key, ts := DecodeUserKey(encoded), DecodeTimestamp(encoded);
      userKey := if key.Decoded? then Some(key.data) else None;
      version := if ts.DecodedTs? then Some((ts.ts, writeIter.cf[encoded])) else None;
    }

    /** The next visible row; `None` at the limit or when nothing visible is left. */
    method Next() returns (row: Option<Row>)
      requires Valid() && Fresh()
      modifies this, writeIter
      ensures Valid() && Fresh()
      ensures row.Some? ==> now.rows == old(now.rows) + [row.value] && |old(now.rows)| < limit
      ensures row.None? ==> now.rows == old(now.rows) && (|now.rows| >= limit || exhausted)
    {
      if exhausted || count >= limit { return None; }
      while writeIter.AtItem()
        invariant Valid() && Fresh() && now.rows == old(now.rows) && !exhausted
        decreases |writeIter.keys| - writeIter.pos
      {
        var userKey, version := Peek();
        ghost var item := scope.items[now.pos];
        if userKey.None? {
          SkipItem();
          continue;
        }
        if endKey.Some? && !Less(userKey.value, endKey.value) {
          PastEnd(writeIter, userKey.value, endKey.value);
          Finish();
          return None;
        }
        if currentKey == userKey || version.None? || version.value.0 > txn.startTs {
          SkipItem();
          continue;
        }
        var write := version.value.1;
        if !write.kind.Put? {
          HideKey(userKey.value, item.value);
          continue;
        }
        var valueKey := EncodeKey(userKey.value, write.startTs);
        EncodesGet(scope.db.values, txn.reader.defaultCf, (userKey.value, write.startTs));
        if valueKey in txn.reader.defaultCf {
          var found := (userKey.value, txn.reader.defaultCf[valueKey]);
          EmitRow(found, item.value);
          return Some(found);
        }
        SkipItem();
      }
      Finish();
      return None;
    }

    /** What the rows reported so far amount to. */
    lemma Meaning()
      requires Valid()
      ensures ScanPrefix(scope.db, startKey, endKey, txn.startTs, now.rows)
      ensures exhausted ==> ScanComplete(scope.db, startKey, endKey, txn.startTs, now.rows)
    {
      InvariantGivesPrefix(scope, now);
    }
  }

  /** From an item at or beyond the end key on, all user keys are. */
  lemma {:induction false} PastEnd(it: Iterator<Write>, u: Key, end: Key)
    requires it.Valid() && it.AtItem() && DecodeUserKey(it.keys[it.pos]).Decoded?
    requires u == DecodeUserKey(it.keys[it.pos]).data && !Less(u, end)
    ensures forall i :: it.pos <= i < |it.items| && it.items[i].Some? ==> !Less(it.items[i].value.0, end)
  {
    forall i | it.pos <= i < |it.items| && it.items[i].Some? ensures !Less(it.items[i].value.0, end) {
      ItemDecodes(it, i);
      if i > it.pos {
        UserKeysSorted(it.keys[it.pos], it.keys[i]);
        if Less(it.items[i].value.0, end) && u != it.items[i].value.0 {
          LessTransitive(u, it.items[i].value.0, end);
        }
      }
    }
  }
}
