/** The key-value store under encoded keys, and the transaction object that reads
    it through an iterator and buffers its own changes. */
module MvccTxns {
  import opened ByteStrings
  import opened Codec
  import opened Options
  import opened MvccModel
  import opened KvIterator

  /** A change as it reaches the store: version keys are already encoded. */
  datatype Modify =
    | LockPut(key: Bytes, lock: Lock)
    | LockDelete(key: Bytes)
    | WritePut(key: Bytes, write: Write)
    | DefaultPut(key: Bytes, value: Value)
    | DefaultDelete(key: Bytes)

  function Encoded(op: Op): Modify {
    match op
    case PutLock(k, l) => LockPut(k, l)
    case DeleteLock(k) => LockDelete(k)
    case PutWrite(k, t, w) => WritePut(EncodeKey(k, t), w)
    case PutValue(k, t, v) => DefaultPut(EncodeKey(k, t), v)
    case DeleteValue(k, t) => DefaultDelete(EncodeKey(k, t))
  }

  ghost predicate EncodedBatch(batch: seq<Modify>, ops: seq<Op>) {
    |batch| == |ops| && forall i :: 0 <= i < |ops| ==> batch[i] == Encoded(ops[i])
  }

  function CurrentWriteOf(db: Db, k: Key, ts: U64): Option<Write> {
    if (k, ts) in db.writes then Some(db.writes[(k, ts)]) else None
  }

  class Storage {
    var lockCf: map<Bytes, Lock>
    var writeCf: map<Bytes, Write>
    var defaultCf: map<Bytes, Value>
    ghost var db: Db

    ghost predicate Valid()
      reads this
    {
      && lockCf == db.locks
      && Encodes(db.writes, writeCf)
      && Encodes(db.values, defaultCf)
    }

    constructor ()
      ensures Valid() && db == Db(map[], map[], map[])
    {
      lockCf, writeCf, defaultCf := map[], map[], map[];
      db := Db(map[], map[], map[]);
    }

    method WriteOne(m: Modify, ghost op: Op)
      requires Valid() && m == Encoded(op)
      modifies this
      ensures Valid() && db == Apply(old(db), op)
    {
      match m {
      case LockPut(k, l) => lockCf := lockCf[k := l];
      case LockDelete(k) => lockCf := lockCf - {k};
      case WritePut(b, w) =>
        writeCf := writeCf[b := w];
        EncodesPut(db.writes, old(writeCf), (op.key, op.ts), w);
      case DefaultPut(b, v) =>
        defaultCf := defaultCf[b := v];
        EncodesPut(db.values, old(defaultCf), (op.key, op.ts), v);
      case DefaultDelete(b) =>
        defaultCf := defaultCf - {b};
        EncodesDelete(db.values, old(defaultCf), (op.key, op.ts));
      }
      db := Apply(db, op);
    }

    method Write(batch: seq<Modify>, ghost ops: seq<Op>)
      requires Valid() && EncodedBatch(batch, ops)
      modifies this
      ensures Valid() && db == ApplyAll(old(db), ops)
    {
      for i := 0 to |batch|
        invariant Valid() && db == ApplyAll(old(db), ops[..i])
      {
        WriteOne(batch[i], ops[i]);
        assert ops[..i + 1][..i] == ops[..i];
      }
      assert ops[..|batch|] == ops;
    }
  }

  class MvccTxn {
    const startTs: U64
    const reader: Storage
    var writes: seq<Modify>
    ghost var ops: seq<Op>

    ghost predicate Valid()
      reads this
    {
      EncodedBatch(writes, ops)
    }

    constructor (reader: Storage, startTs: U64)
      ensures Valid() && this.startTs == startTs && this.reader == reader && ops == []
    {
      this.startTs := startTs;
      this.reader := reader;
      writes, ops := [], [];
    }

    method Push(m: Modify, ghost op: Op)
      requires Valid() && m == Encoded(op)
      modifies this
      ensures Valid() && ops == old(ops) + [op]
    {
      writes := writes + [m];
      ops := ops + [op];
    }

    method AddWrite(key: Key, ts: U64, write: Write)
      requires Valid()
      modifies this
      ensures Valid() && ops == old(ops) + [PutWrite(key, ts, write)]
    {
      Push(WritePut(EncodeKey(key, ts), write), PutWrite(key, ts, write));
    }

    method AddLock(key: Key, lock: Lock)
      requires Valid()
      modifies this
      ensures Valid() && ops == old(ops) + [PutLock(key, lock)]
    {
      Push(LockPut(key, lock), PutLock(key, lock));
    }

    method RemoveLock(key: Key)
      requires Valid()
      modifies this
      ensures Valid() && ops == old(ops) + [DeleteLock(key)]
    {
      Push(LockDelete(key), DeleteLock(key));
    }

    method AddValue(key: Key, value: Value)
      requires Valid()
      modifies this
      ensures Valid() && ops == old(ops) + [PutValue(key, startTs, value)]
    {
      Push(DefaultPut(EncodeKey(key, startTs), value), PutValue(key, startTs, value));
    }

    method RemoveValue(key: Key)
      requires Valid()
      modifies this
      ensures Valid() && ops == old(ops) + [DeleteValue(key, startTs)]
    {
      Push(DefaultDelete(EncodeKey(key, startTs)), DeleteValue(key, startTs));
    }

    method GetLock(key: Key) returns (lock: Option<Lock>)
      requires reader.Valid()
      ensures lock == if key in reader.db.locks then Some(reader.db.locks[key]) else None
    {
      lock := if key in reader.lockCf then Some(reader.lockCf[key]) else None;
    }

    /** The record committed exactly at the transaction's own start timestamp. */
    method CurrentWrite(key: Key) returns (write: Option<Write>, commitTs: U64)
      requires reader.Valid()
      ensures write == CurrentWriteOf(reader.db, key, startTs)
      ensures commitTs == if write.Some? then startTs else 0
    {
      var it := new Iterator(reader.writeCf, reader.db.writes);
      var search := EncodeKey(key, startTs);
      it.Seek(search);
      ExactSeek(it, key, startTs);
      if !it.AtItem() { return None, 0; }
      var encoded := it.keys[it.pos];
      ItemDecodes(it, it.pos);
      var userKey := DecodeUserKey(encoded);
      if !userKey.Decoded? || userKey.data != key { return None, 0; }
      var ts := DecodeTimestamp(encoded);
      if !ts.DecodedTs? || ts.ts != startTs { return None, 0; }
      return Some(it.cf[encoded]), ts.ts;
    }

    /** The newest record not above the start timestamp, found by walking the
        encoded keys. */
    method MostRecentWrite(key: Key) returns (write: Option<Write>, commitTs: U64)
      requires reader.Valid()
      ensures match Latest(reader.db.writes, key, startTs)
              case None => write == None && commitTs == 0
              case Some(c) => write == Some(reader.db.writes[(key, c)]) && commitTs == c
    {
      var it := new Iterator(reader.writeCf, reader.db.writes);
      it.Seek(EncodeKey(key, U64_MAX));
      NewestSeek(it, key);
      if !it.AtItem() {
        // Nothing at or above the newest possible version: try the bare key.
        it.Seek(EncodeBytes(key));
        PrefixSeek(it, key);
      }
      while it.AtItem()
        invariant it.Valid() && it.model == reader.db.writes
        invariant Passed(it.items, it.pos, key, startTs)
        invariant Ahead(it.keys, it.pos, key)
        decreases |it.keys| - it.pos
      {
        var encoded := it.keys[it.pos];
        ItemDecodes(it, it.pos);
        var userKey := DecodeUserKey(encoded);
        if !userKey.Decoded? {
          PassedOne(it.items, it.pos, key, startTs);
          it.Next();
          continue;
        }
        if userKey.data != key {
          LaterKeysOnly(it, key);
          break;
        }
        var ts := DecodeTimestamp(encoded);
        if !ts.DecodedTs? {
          PassedOne(it.items, it.pos, key, startTs);
          it.Next();
          continue;
        }
        if ts.ts <= startTs {
          NewestHere(it, key, startTs);
          LatestUnique(it.model, key, startTs, ts.ts);
          return Some(it.cf[encoded]), ts.ts;
        }
        PassedOne(it.items, it.pos, key, startTs);
        it.Next();
      }
      NoneLeft(it, key, startTs);
      return None, 0;
    }

    /** Reads the value at the start timestamp; a lock of another transaction is an
        error. */
    method GetValue(key: Key) returns (answer: GetAnswer)
      requires reader.Valid()
      ensures answer == Get(reader.db, key, startTs)
      ensures answer.Answer? <==> (key in reader.db.locks ==> reader.db.locks[key].ts == startTs)
    {
      var lock := GetLock(key);
      if lock.Some? && lock.value.ts != startTs { return LockError(lock.value); }
      var write, commitTs := MostRecentWrite(key);
      if write.None? || !write.value.kind.Put? { return Answer(None); }
      var encoded := EncodeKey(key, write.value.startTs);
      EncodesGet(reader.db.values, reader.defaultCf, (key, write.value.startTs));
      return Answer(if encoded in reader.defaultCf then Some(reader.defaultCf[encoded]) else None);
    }
  }

  // ---- The cursor against the versions of one key ----

  /** Every version of `key` among the first `n` items is newer than `t`. */
  ghost predicate Passed(items: seq<Option<Version>>, n: nat, key: Key, t: U64)
    requires n <= |items|
  {
    forall i :: 0 <= i < n && items[i].Some? && items[i].value.0 == key ==> items[i].value.1 > t
  }

  /** Nothing from place `n` on decodes to a key below `key`. */
  ghost predicate Ahead(keys: seq<Bytes>, n: nat, key: Key) {
    forall i :: n <= i < |keys| && DecodeUserKey(keys[i]).Decoded? ==> !Less(DecodeUserKey(keys[i]).data, key)
  }

  lemma {:induction false} PassedOne(items: seq<Option<Version>>, n: nat, key: Key, t: U64)
    requires n < |items| && Passed(items, n, key, t)
    requires items[n].Some? && items[n].value.0 == key ==> items[n].value.1 > t
    ensures Passed(items, n + 1, key, t)
  {
  }

  lemma {:induction false} ExactSeek<V>(it: Iterator<V>, key: Key, t: U64)
    requires it.Valid()
    requires forall i :: 0 <= i < it.pos ==> Less(it.keys[i], EncodeKey(key, t))
    requires forall i :: it.pos <= i < |it.keys| ==> !Less(it.keys[i], EncodeKey(key, t))
    ensures (key, t) in it.model ==> it.AtItem() && it.items[it.pos] == Some((key, t))
  {
    if (key, t) in it.model {
      var i := PlaceOf(it, (key, t));
      LessIrreflexive(EncodeKey(key, t));
      if it.pos < i { KeysSorted(it, it.pos, i); }
    }
  }

  /** A seek to the largest timestamp skips only what belongs to smaller keys. */
  lemma {:induction false} NewestSeek<V>(it: Iterator<V>, key: Key)
    requires it.Valid()
    requires forall i :: 0 <= i < it.pos ==> Less(it.keys[i], EncodeKey(key, U64_MAX))
    requires forall i :: it.pos <= i < |it.keys| ==> !Less(it.keys[i], EncodeKey(key, U64_MAX))
    ensures forall i :: 0 <= i < it.pos && it.items[i].Some? ==> Less(it.items[i].value.0, key)
    ensures forall t :: Passed(it.items, it.pos, key, t)
    ensures Ahead(it.keys, it.pos, key)
  {
    forall i | 0 <= i < it.pos && it.items[i].Some? ensures Less(it.items[i].value.0, key) {
      assert Holds(it.model, it.keys[i], it.items[i]);
      OrderEmbedding(it.items[i].value.0, it.items[i].value.1, key, U64_MAX);
    }
    LessIrreflexive(key);
    forall i | it.pos <= i < |it.keys| && DecodeUserKey(it.keys[i]).Decoded?
      ensures !Less(DecodeUserKey(it.keys[i]).data, key)
    {
      var b := it.keys[i];
      PrefixOrder(key, b);
      if Less(b, EncodeBytes(key)) {
        PrefixBelow(EncodeBytes(key), ToBigEndian(Invert(U64_MAX), 8));
        LessTransitive(b, EncodeBytes(key), EncodeKey(key, U64_MAX));
      }
    }
  }

  lemma {:induction false} PrefixBelow(p: Bytes, x: Bytes)
    requires |x| > 0
    ensures Less(p, p + x)
  {
    assert p + [] == p;
    LessUnderPrefix(p, [], x);
  }

  lemma {:induction false} PrefixSeek<V>(it: Iterator<V>, key: Key)
    requires it.Valid()
    requires forall i :: 0 <= i < it.pos ==> Less(it.keys[i], EncodeBytes(key))
    requires forall i :: it.pos <= i < |it.keys| ==> !Less(it.keys[i], EncodeBytes(key))
    ensures forall t :: Passed(it.items, it.pos, key, t)
    ensures Ahead(it.keys, it.pos, key)
  {
    forall i | 0 <= i < it.pos && it.items[i].Some? ensures it.items[i].value.0 != key {
      ItemDecodes(it, i);
      PrefixOrder(key, it.keys[i]);
      LessIrreflexive(key);
    }
    forall i | it.pos <= i < |it.keys| && DecodeUserKey(it.keys[i]).Decoded?
      ensures !Less(DecodeUserKey(it.keys[i]).data, key)
    {
      PrefixOrder(key, it.keys[i]);
    }
  }

  /** Behind a larger key, no version of the key searched for can follow. */
  lemma {:induction false} LaterKeyDiffers<V>(it: Iterator<V>, key: Key, u: Key, i: nat)
    requires it.Valid() && it.pos < i < |it.items| && it.items[i].Some?
    requires DecodeUserKey(it.keys[it.pos]).Decoded? && DecodeUserKey(it.keys[it.pos]).data == u
    requires u != key && !Less(u, key)
    ensures it.items[i].value.0 != key
  {
    ItemDecodes(it, i);
    KeysSorted(it, it.pos, i);
    UserKeysSorted(it.keys[it.pos], it.keys[i]);
  }

  /** Once the cursor stands on a larger key, the key searched for is behind it. */
  lemma {:induction false} LaterKeysOnly<V>(it: Iterator<V>, key: Key)
    requires it.Valid() && it.AtItem() && Ahead(it.keys, it.pos, key)
    requires DecodeUserKey(it.keys[it.pos]).Decoded? && DecodeUserKey(it.keys[it.pos]).data != key
    ensures forall i :: it.pos <= i < |it.items| && it.items[i].Some? ==> it.items[i].value.0 != key
  {
    var u := DecodeUserKey(it.keys[it.pos]).data;
    ItemDecodes(it, it.pos);
    forall i | it.pos <= i < |it.items| && it.items[i].Some? ensures it.items[i].value.0 != key {
      if i > it.pos { LaterKeyDiffers(it, key, u, i); }
    }
  }

  lemma {:induction false} NewestHere<V>(it: Iterator<V>, key: Key, t: U64)
    requires it.Valid() && it.AtItem() && Passed(it.items, it.pos, key, t)
    requires it.items[it.pos].Some? && it.items[it.pos].value.0 == key && it.items[it.pos].value.1 <= t
    ensures forall c' :: it.items[it.pos].value.1 < c' <= t ==> (key, c') !in it.model
  {
    forall c' | it.items[it.pos].value.1 < c' <= t ensures (key, c') !in it.model {
      if (key, c') in it.model {
        var i := PlaceOf(it, (key, c'));
        VersionsSorted(it, it.pos, i);
        LessIrreflexive(key);
      }
    }
  }

  lemma {:induction false} NoneLeft<V>(it: Iterator<V>, key: Key, t: U64)
    requires it.Valid() && Passed(it.items, it.pos, key, t)
    requires forall i :: it.pos <= i < |it.items| && it.items[i].Some? ==> it.items[i].value.0 != key
    ensures forall c :: 0 <= c <= t ==> (key, c) !in it.model
  {
    forall c | 0 <= c <= t ensures (key, c) !in it.model {
      if (key, c) in it.model { var i := PlaceOf(it, (key, c)); }
    }
  }
}
