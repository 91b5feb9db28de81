/** Three tiers that together mean one map: writing, moving entries, and when that
    shows. */
module TierModel {
  import opened Options
  import opened ByteStrings

  type Value = Bytes
  type Store = map<Bytes, Value>

  datatype Tier = Hot | Warm | Cold

  datatype Tiers = Tiers(hot: Store, warm: Store, cold: Store)

  function Db(t: Tiers, tier: Tier): Store {
    match tier
    case Hot => t.hot
    case Warm => t.warm
    case Cold => t.cold
  }

  function WithDb(t: Tiers, tier: Tier, m: Store): Tiers {
    match tier
    case Hot => t.(hot := m)
    case Warm => t.(warm := m)
    case Cold => t.(cold := m)
  }

  function Get(m: Store, k: Bytes): Option<Value> {
    if k in m then Some(m[k]) else None
  }

  /** Readers look in the hot tier first, then in the warm, then in the cold one. */
  function Lookup(t: Tiers, k: Bytes): Option<Value> {
    if k in t.hot then Some(t.hot[k]) else if k in t.warm then Some(t.warm[k]) else Get(t.cold, k)
  }

  /** The one map that the tiers mean. */
  function Merged(t: Tiers): Store {
    t.cold + t.warm + t.hot
  }

  predicate Disjoint(t: Tiers) {
    t.hot.Keys !! t.warm.Keys && t.hot.Keys !! t.cold.Keys && t.warm.Keys !! t.cold.Keys
  }

  lemma {:induction false} LookupIsMerged(t: Tiers, k: Bytes)
    ensures Lookup(t, k) == Get(Merged(t), k)
  {
  }

  // ---- Keys ----

  const UNDERSCORE: Byte := 0x5F

  function KeyWithCf(cf: Bytes, key: Bytes): Bytes {
    cf + [UNDERSCORE] + key
  }

  /** Column families whose names have no underscore never share a stored key. */
  lemma {:induction false} StoredKeysDistinct(cf: Bytes, key: Bytes, cf': Bytes, key': Bytes)
    requires UNDERSCORE !in cf && UNDERSCORE !in cf'
    ensures KeyWithCf(cf, key) == KeyWithCf(cf', key') <==> cf == cf' && key == key'
  {
    var a, b := KeyWithCf(cf, key), KeyWithCf(cf', key');
    if a == b {
      FirstUnderscore(cf, key);
      FirstUnderscore(cf', key');
      assert |cf| == |cf'|;
      assert cf == a[..|cf|] && cf' == b[..|cf'|] && key == a[|cf| + 1..] && key' == b[|cf'| + 1..];
    }
  }

  lemma {:induction false} FirstUnderscore(cf: Bytes, key: Bytes)
    requires UNDERSCORE !in cf
    ensures KeyWithCf(cf, key)[|cf|] == UNDERSCORE && forall i :: 0 <= i < |cf| ==> KeyWithCf(cf, key)[i] != UNDERSCORE
  {
    assert forall i :: 0 <= i < |cf| ==> KeyWithCf(cf, key)[i] == cf[i] && cf[i] in cf;
  }

  // ---- Batches ----

  datatype Modify = Put(cf: Bytes, key: Bytes, value: Value) | Delete(cf: Bytes, key: Bytes)

  function StoredKey(m: Modify): Bytes {
    KeyWithCf(m.cf, m.key)
  }

  /** What a plain map makes of a batch: one change after the other. */
  function PlainApply(m: Store, batch: seq<Modify>): Store {
    if batch == [] then m
    else
      var before, last := PlainApply(m, batch[..|batch| - 1]), batch[|batch| - 1];
      if last.Put? then before[StoredKey(last) := last.value] else before - {StoredKey(last)}
  }

  /** The keys a batch deletes, and what it puts. */
  function Deleted(batch: seq<Modify>): set<Bytes> {
    if batch == [] then {}
    else Deleted(batch[..|batch| - 1]) + if batch[|batch| - 1].Delete? then {StoredKey(batch[|batch| - 1])} else {}
  }

  function Buffered(batch: seq<Modify>): Store {
    if batch == [] then map[]
    else
      var before, last := Buffered(batch[..|batch| - 1]), batch[|batch| - 1];
      if last.Put? then before[StoredKey(last) := last.value] else before
  }

  lemma {:induction false} OneMoreChange(batch: seq<Modify>, i: nat)
    requires i < |batch|
    ensures Deleted(batch[..i + 1]) == Deleted(batch[..i]) + if batch[i].Delete? then {StoredKey(batch[i])} else {}
    ensures Buffered(batch[..i + 1]) == if batch[i].Put?
              then Buffered(batch[..i])[StoredKey(batch[i]) := batch[i].value] else Buffered(batch[..i])
  {
    assert batch[..i + 1][..i] == batch[..i];
  }

  /** What the tiers make of it: deletions at once and in all tiers, then all puts into
      the warm one. */
  function TierWrite(t: Tiers, batch: seq<Modify>): Tiers {
    var d := DeleteAll(t, Deleted(batch));
    d.(warm := d.warm + Buffered(batch))
  }

  function DeleteAll(t: Tiers, ks: set<Bytes>): Tiers {
    Tiers(t.hot - ks, t.warm - ks, t.cold - ks)
  }

  lemma {:induction false} DeleteOneMore(t: Tiers, ks: set<Bytes>, k: Bytes)
    ensures DeleteAll(DeleteAll(t, ks), {k}) == DeleteAll(t, ks + {k})
  {
    assert t.hot - ks - {k} == t.hot - (ks + {k});
    assert t.warm - ks - {k} == t.warm - (ks + {k});
    assert t.cold - ks - {k} == t.cold - (ks + {k});
  }

  /** The first `i` changes: deletions done, puts buffered. */
  predicate Written(t: Tiers, batch: seq<Modify>, i: nat, now: Tiers, wb: Store)
    requires i <= |batch|
  {
    wb == Buffered(batch[..i]) && now == DeleteAll(t, Deleted(batch[..i]))
  }

  lemma {:induction false} WrittenMore(t: Tiers, batch: seq<Modify>, i: nat, now: Tiers, wb: Store)
    requires i < |batch| && Written(t, batch, i, now, wb)
    ensures batch[i].Put? ==> Written(t, batch, i + 1, now, wb[StoredKey(batch[i]) := batch[i].value])
    ensures batch[i].Delete? ==> Written(t, batch, i + 1, DeleteAll(now, {StoredKey(batch[i])}), wb)
  {
    OneMoreChange(batch, i);
    if batch[i].Delete? {
      DeleteOneMore(t, Deleted(batch[..i]), StoredKey(batch[i]));
    } else {
      assert Deleted(batch[..i + 1]) == Deleted(batch[..i]);
    }
  }

  /** The last change of the batch to `k`. */
  function LastChange(batch: seq<Modify>, k: Bytes): Option<Modify> {
    if batch == [] then None
    else if StoredKey(batch[|batch| - 1]) == k then Some(batch[|batch| - 1])
    else LastChange(batch[..|batch| - 1], k)
  }

  lemma {:induction false} LastChangeTells(m: Store, batch: seq<Modify>, k: Bytes)
    ensures match LastChange(batch, k)
            case None => Get(PlainApply(m, batch), k) == Get(m, k) && k !in Deleted(batch) && k !in Buffered(batch)
            case Some(Put(_, _, v)) =>
              Get(PlainApply(m, batch), k) == Some(v) && k in Buffered(batch) && Buffered(batch)[k] == v
            case Some(Delete(_, _)) => Get(PlainApply(m, batch), k) == None && k in Deleted(batch)
    decreases |batch|
  {
    if batch != [] && StoredKey(batch[|batch| - 1]) != k { LastChangeTells(m, batch[..|batch| - 1], k); }
  }

  /** The batch puts `k` last, and no hot entry hides the new value. */
  predicate Shows(t: Tiers, batch: seq<Modify>, k: Bytes) {
    k in Buffered(batch) ==>
      && LastChange(batch, k).Some? && LastChange(batch, k).value.Put?
      && (k in t.hot && k !in Deleted(batch) ==> t.hot[k] == Buffered(batch)[k])
  }

  /** Reading a key after a batch gives what a plain map would give if and only if the
      batch, should it put the key at all, puts it last and no older value stays in the
      hot tier. */
  lemma {:induction false} WriteAgreesIff(t: Tiers, batch: seq<Modify>, k: Bytes)
    ensures Lookup(TierWrite(t, batch), k) == Get(PlainApply(Merged(t), batch), k) <==> Shows(t, batch, k)
  {
    LastChangeTells(Merged(t), batch, k);
    LookupIsMerged(t, k);
  }

  /** The tiers stay disjoint if and only if every key put was in neither the hot nor the
      cold tier, or is deleted by the same batch. */
  predicate StaysApart(t: Tiers, batch: seq<Modify>) {
    forall k :: k in Buffered(batch) ==> k in Deleted(batch) || (k !in t.hot && k !in t.cold)
  }

  lemma {:induction false} WriteDisjointIff(t: Tiers, batch: seq<Modify>)
    requires Disjoint(t)
    ensures Disjoint(TierWrite(t, batch)) <==> StaysApart(t, batch)
  {
    var t' := TierWrite(t, batch);
    if !StaysApart(t, batch) {
      var k :| k in Buffered(batch) && k !in Deleted(batch) && (k in t.hot || k in t.cold);
      assert k in t'.warm && (k in t'.hot || k in t'.cold);
    }
  }

  /** Every key the batch puts it puts last, and the tiers stay disjoint. */
  ghost predicate Clean(t: Tiers, batch: seq<Modify>) {
    StaysApart(t, batch) && forall k :: k in Buffered(batch) ==>
      LastChange(batch, k).Some? && LastChange(batch, k).value.Put?
  }

  lemma {:induction false} CleanWrite(t: Tiers, batch: seq<Modify>)
    requires Disjoint(t) && Clean(t, batch)
    ensures Disjoint(TierWrite(t, batch)) && Merged(TierWrite(t, batch)) == PlainApply(Merged(t), batch)
  {
    var t' := TierWrite(t, batch);
    WriteDisjointIff(t, batch);
    forall k: Bytes ensures Get(Merged(t'), k) == Get(PlainApply(Merged(t), batch), k) {
      assert Shows(t, batch, k);
      WriteAgreesIff(t, batch, k);
      LookupIsMerged(t', k);
    }
    SameGets(Merged(t'), PlainApply(Merged(t), batch));
  }

  lemma {:induction false} SameGets(a: Store, b: Store)
    requires forall k: Bytes :: Get(a, k) == Get(b, k)
    ensures a == b
  {
    assert forall k :: k in a ==> Get(b, k) == Some(a[k]);
    assert forall k :: k in b ==> Get(a, k) == Some(b[k]);
  }

  // ---- Moving entries ----

  datatype Move = Move(key: Bytes, src: Tier, dst: Tier)

  /** Entries move one tier at a time. */
  predicate CanMove(t: Tiers, m: Move) {
    m.key in Db(t, m.src) && m.src != m.dst && (m.src == Warm || m.dst == Warm)
  }

  /** First copied, then deleted where it was. */
  function MoveEntry(t: Tiers, m: Move): Tiers
    requires CanMove(t, m)
  {
    var copied := WithDb(t, m.dst, Db(t, m.dst)[m.key := Db(t, m.src)[m.key]]);
    WithDb(copied, m.src, Db(copied, m.src) - {m.key})
  }

  /** The move goes down, or finds no other value of the key in its new tier, or a hotter
      tier hides both. */
  predicate Unseen(t: Tiers, m: Move)
    requires CanMove(t, m)
  {
    || m.src == Hot || m.dst == Cold || m.key !in Db(t, m.dst)
    || Db(t, m.dst)[m.key] == Db(t, m.src)[m.key] || (m.dst == Warm && m.key in t.hot)
  }

  /** Readers do not notice a move if and only if it is unseen in this sense. */
  lemma {:induction false} MoveKeepsLookupsIff(t: Tiers, m: Move)
    requires CanMove(t, m)
    ensures (forall k: Bytes {:trigger Lookup(t, k)} :: Lookup(MoveEntry(t, m), k) == Lookup(t, k)) <==> Unseen(t, m)
  {
    forall k: Bytes | k != m.key ensures Lookup(MoveEntry(t, m), k) == Lookup(t, k) {
    }
    assert Lookup(MoveEntry(t, m), m.key) == Lookup(t, m.key) <==> Unseen(t, m);
  }

  lemma {:induction false} MoveKeeps(t: Tiers, m: Move)
    requires Disjoint(t) && CanMove(t, m)
    ensures Disjoint(MoveEntry(t, m)) && Merged(MoveEntry(t, m)) == Merged(t)
  {
    var t' := MoveEntry(t, m);
    MoveKeepsLookupsIff(t, m);
    forall k: Bytes ensures Get(Merged(t'), k) == Get(Merged(t), k) {
      assert Lookup(t', k) == Lookup(t, k);
      LookupIsMerged(t, k);
      LookupIsMerged(t', k);
    }
    SameGets(Merged(t'), Merged(t));
  }

  predicate CanMoveAll(t: Tiers, ms: seq<Move>)
    decreases |ms|, 0
  {
    ms == [] || (CanMoveAll(t, ms[..|ms| - 1]) && CanMove(MoveAll(t, ms[..|ms| - 1]), ms[|ms| - 1]))
  }

  function MoveAll(t: Tiers, ms: seq<Move>): Tiers
    requires CanMoveAll(t, ms)
    decreases |ms|, 1
  {
    if ms == [] then t else MoveEntry(MoveAll(t, ms[..|ms| - 1]), ms[|ms| - 1])
  }

  lemma {:induction false} MoreMoves(t: Tiers, ms: seq<Move>, ns: seq<Move>)
    requires CanMoveAll(t, ms) && CanMoveAll(MoveAll(t, ms), ns)
    ensures CanMoveAll(t, ms + ns) && MoveAll(t, ms + ns) == MoveAll(MoveAll(t, ms), ns)
    decreases |ns|
  {
    if ns == [] {
      assert ms + ns == ms;
    } else {
      assert (ms + ns)[..|ms + ns| - 1] == ms + ns[..|ns| - 1];
      MoreMoves(t, ms, ns[..|ns| - 1]);
    }
  }

  /** Any number of moves keeps disjoint tiers disjoint and their contents the same. */
  lemma {:induction false} MovesKeep(t: Tiers, ms: seq<Move>)
    requires Disjoint(t) && CanMoveAll(t, ms)
    ensures Disjoint(MoveAll(t, ms)) && Merged(MoveAll(t, ms)) == Merged(t)
    decreases |ms|
  {
    if ms != [] {
      MovesKeep(t, ms[..|ms| - 1]);
      MoveKeeps(MoveAll(t, ms[..|ms| - 1]), ms[|ms| - 1]);
    }
  }

  // ---- Rebalancing ----

  type U32 = x: int | 0 <= x < 0x1_0000_0000

  function Wrapped(n: nat): U32 {
    n % 0x1_0000_0000
  }

  /** The thresholds of the storage. */
  datatype Policy = Policy(promote: U32, demote: U32, hysteresis: U32)

  type Counts = map<Bytes, U32>

  function CountOf(counts: Counts, k: Bytes): U32 {
    if k in counts then counts[k] else 0
  }

  /** Where an entry of a tier belongs, by its access count. */
  function Decide(p: Policy, current: Tier, count: U32): (target: Tier)
    ensures current != Warm ==> target == current || target == Warm
  {
    match current
    case Hot => if Wrapped(count + p.hysteresis) <= p.demote then Warm else Hot
    case Cold => if count >= Wrapped(p.promote + p.hysteresis) then Warm else Cold
    case Warm => if count >= p.promote then Hot else if count <= p.demote then Cold else Warm
  }

  function Wanted(p: Policy, counts: Counts, tier: Tier, k: Bytes): Tier {
    Decide(p, tier, CountOf(counts, k))
  }

  predicate KeyMoved(ms: seq<Move>, k: Bytes) {
    exists i :: 0 <= i < |ms| && ms[i].key == k
  }

  /** Each move takes an entry out of the tier to where it belongs, in byte order. */
  predicate Placing(p: Policy, counts: Counts, tier: Tier, ms: seq<Move>) {
    && (forall i :: 0 <= i < |ms| ==> ms[i].src == tier && ms[i].dst == Wanted(p, counts, tier, ms[i].key) != tier)
    && (forall i, j :: 0 <= i < j < |ms| ==> Less(ms[i].key, ms[j].key))
  }

  /** One scan of a tier with room for so many moves: what is misplaced moves, all of it or,
      once the room is used up, exactly the first entries in byte order. */
  ghost predicate Pass(p: Policy, counts: Counts, tier: Tier, t: Tiers, ms: seq<Move>, room: nat, t': Tiers) {
    && |ms| <= room && CanMoveAll(t, ms) && t' == MoveAll(t, ms) && Placing(p, counts, tier, ms)
    && forall k {:trigger KeyMoved(ms, k)} :: k in Db(t, tier) && Wanted(p, counts, tier, k) != tier ==>
         KeyMoved(ms, k) || (|ms| == room && forall i :: 0 <= i < |ms| ==> Less(ms[i].key, k))
  }

  /** Who is in which tier after entries have left one. */
  lemma {:induction false} MembersAfter(t: Tiers, ms: seq<Move>, tier: Tier, x: Tier, k: Bytes)
    requires CanMoveAll(t, ms) && forall i :: 0 <= i < |ms| ==> ms[i].src == tier
    ensures k in Db(MoveAll(t, ms), x) <==>
            if x == tier then k in Db(t, x) && !KeyMoved(ms, k) else k in Db(t, x) || Move(k, tier, x) in ms
    decreases |ms|
  {
    if ms != [] {
      var front, last := ms[..|ms| - 1], ms[|ms| - 1];
      MembersAfter(t, front, tier, x, k);
      assert ms == front + [last];
      KeyMovedLast(front, last, k);
    }
  }

  lemma {:induction false} KeyMovedLast(ms: seq<Move>, m: Move, k: Bytes)
    ensures KeyMoved(ms + [m], k) <==> KeyMoved(ms, k) || m.key == k
  {
    var all := ms + [m];
    assert all[|ms|] == m && forall i :: 0 <= i < |ms| ==> all[i] == ms[i];
    if KeyMoved(ms, k) {
      var i :| 0 <= i < |ms| && ms[i].key == k;
      assert all[i].key == k;
    }
  }

  /** A scan with room to spare leaves in the tier exactly what belongs there. */
  lemma {:induction false} PassSettles(p: Policy, counts: Counts, tier: Tier, t: Tiers, ms: seq<Move>, room: nat,
                                       t': Tiers, x: Tier, k: Bytes)
    requires Pass(p, counts, tier, t, ms, room, t') && |ms| < room
    ensures k in Db(t', x) <==>
            if x == tier then k in Db(t, x) && Wanted(p, counts, tier, k) == tier
            else k in Db(t, x) || (k in Db(t, tier) && Wanted(p, counts, tier, k) == x)
  {
    MembersAfter(t, ms, tier, x, k);
    if k in Db(t, tier) && Wanted(p, counts, tier, k) != tier {
      assert KeyMoved(ms, k);
      var i :| 0 <= i < |ms| && ms[i].key == k;
      assert ms[i] == Move(k, tier, Wanted(p, counts, tier, k));
    }
    if KeyMoved(ms, k) { MovedWasThere(t, ms, tier, k); }
    if Move(k, tier, x) in ms {
      var i :| 0 <= i < |ms| && ms[i] == Move(k, tier, x);
      assert KeyMoved(ms, k);
      MovedWasThere(t, ms, tier, k);
    }
  }

  lemma {:induction false} MovedWasThere(t: Tiers, ms: seq<Move>, tier: Tier, k: Bytes)
    requires CanMoveAll(t, ms) && (forall i :: 0 <= i < |ms| ==> ms[i].src == tier) && KeyMoved(ms, k)
    ensures k in Db(t, tier)
    decreases |ms|
  {
    var front, last := ms[..|ms| - 1], ms[|ms| - 1];
    assert ms == front + [last];
    KeyMovedLast(front, last, k);
    if KeyMoved(front, k) {
      MovedWasThere(t, front, tier, k);
    } else {
      MembersAfter(t, front, tier, tier, k);
    }
  }

  /** One round: the hot tier is scanned, then the warm one, then the cold one. */
  ghost predicate RoundOf(p: Policy, counts: Counts, t: Tiers, h: seq<Move>, w: seq<Move>, c: seq<Move>, t': Tiers) {
    && CanMoveAll(t, h) && CanMoveAll(MoveAll(t, h), w) && |h| + |w| <= MAX_MOVE_PER_ROUND
    && Pass(p, counts, Hot, t, h, MAX_MOVE_PER_ROUND, MoveAll(t, h))
    && Pass(p, counts, Warm, MoveAll(t, h), w, MAX_MOVE_PER_ROUND - |h|, MoveAll(MoveAll(t, h), w))
    && Pass(p, counts, Cold, MoveAll(MoveAll(t, h), w), c, MAX_MOVE_PER_ROUND - |h| - |w|, t')
  }

  /** Where the scan of a tier sends an entry. */
  function Settle(p: Policy, count: U32, scanned: Tier, current: Tier): Tier {
    if current == scanned then Decide(p, current, count) else current
  }

  /** Where a whole round sends it: the scans come one after the other, with one count. */
  function RoundTarget(p: Policy, count: U32, current: Tier): Tier {
    Settle(p, count, Cold, Settle(p, count, Warm, Settle(p, count, Hot, current)))
  }

  predicate InTier(t: Tiers, x: Tier, k: Bytes) {
    k in Db(t, x)
  }

  /** `k` is in a tier whose entries are sent to `y`, when those of the hot, warm and cold
      tier go to the three given ones. */
  predicate SentTo(t: Tiers, k: Bytes, fromHot: Tier, fromWarm: Tier, fromCold: Tier, y: Tier) {
    (k in t.hot && fromHot == y) || (k in t.warm && fromWarm == y) || (k in t.cold && fromCold == y)
  }

  lemma {:induction false} PassSends(p: Policy, counts: Counts, tier: Tier, t: Tiers, ms: seq<Move>, room: nat,
                                     t': Tiers, x: Tier, k: Bytes)
    requires Pass(p, counts, tier, t, ms, room, t') && |ms| < room
    ensures Scans(p, counts, tier, t, t', x, k)
  {
    PassSettles(p, counts, tier, t, ms, room, t', x, k);
  }

  /** After a round that was not cut short, an entry is in a tier if and only if it was in
      some tier from which the round sends it there. */
  lemma {:induction false} RoundSettles(p: Policy, counts: Counts, t: Tiers, h: seq<Move>, w: seq<Move>, c: seq<Move>,
                                        t': Tiers, y: Tier, k: Bytes)
    requires RoundOf(p, counts, t, h, w, c, t') && |h| + |w| + |c| < MAX_MOVE_PER_ROUND
    ensures InTier(t', y, k) <==> Destined(p, counts, t, y, k)
  {
    var t1, t2 := MoveAll(t, h), MoveAll(MoveAll(t, h), w);
    var rest := MAX_MOVE_PER_ROUND - |h|;
    forall x: Tier
      ensures Scans(p, counts, Hot, t, t1, x, k) && Scans(p, counts, Warm, t1, t2, x, k)
      ensures Scans(p, counts, Cold, t2, t', x, k)
    {
      PassSends(p, counts, Hot, t, h, MAX_MOVE_PER_ROUND, t1, x, k);
      PassSends(p, counts, Warm, t1, w, rest, t2, x, k);
      PassSends(p, counts, Cold, t2, c, rest - |w|, t', x, k);
    }
    ThreeScans(p, counts, t, t1, t2, t', y, k);
  }

  /** After the scan of a tier, `k` is in `x` if and only if the scan sends it there. */
  predicate Scans(p: Policy, counts: Counts, tier: Tier, t: Tiers, t': Tiers, x: Tier, k: Bytes) {
    var n := CountOf(counts, k);
    InTier(t', x, k) <==> SentTo(t, k, Settle(p, n, tier, Hot), Settle(p, n, tier, Warm), Settle(p, n, tier, Cold), x)
  }

  lemma {:induction false} ThreeScans(p: Policy, counts: Counts, t: Tiers, t1: Tiers, t2: Tiers, t': Tiers, y: Tier,
                                      k: Bytes)
    requires Scans(p, counts, Hot, t, t1, Hot, k) && Scans(p, counts, Hot, t, t1, Warm, k)
    requires Scans(p, counts, Hot, t, t1, Cold, k)
    requires Scans(p, counts, Warm, t1, t2, Hot, k) && Scans(p, counts, Warm, t1, t2, Warm, k)
    requires Scans(p, counts, Warm, t1, t2, Cold, k)
    requires Scans(p, counts, Cold, t2, t', y, k)
    ensures InTier(t', y, k) <==> Destined(p, counts, t, y, k)
  {
  }

  /** `k` is in a tier from which the round sends it to `y`. */
  predicate Destined(p: Policy, counts: Counts, t: Tiers, y: Tier, k: Bytes) {
    var n := CountOf(counts, k);
    SentTo(t, k, RoundTarget(p, n, Hot), RoundTarget(p, n, Warm), RoundTarget(p, n, Cold), y)
  }

  /** The warm tier is scanned after the hot one and with the same counts, so an entry that
      leaves the hot tier and is not popular enough to return ends the round in the cold
      tier: it falls two tiers at once. */
  lemma {:induction false} HotFallsToCold(p: Policy, count: U32)
    requires count + p.hysteresis <= 0xFFFF_FFFF && count < p.promote && p.promote + p.hysteresis <= 0xFFFF_FFFF
    ensures Decide(p, Hot, count) == Warm ==> RoundTarget(p, count, Hot) == Cold
  {
  }

  // ---- Runs ----

  const MAX_MOVE_PER_ROUND := 1000

  datatype Act = Batch(batch: seq<Modify>) | Round(moves: seq<Move>)

  ghost predicate Acts(t: Tiers, a: Act, t': Tiers) {
    match a
    case Batch(batch) => Clean(t, batch) && t' == TierWrite(t, batch)
    case Round(ms) => |ms| <= MAX_MOVE_PER_ROUND && CanMoveAll(t, ms) && t' == MoveAll(t, ms)
  }

  /** The plain map after the batches among the first acts. */
  function PlainRun(m: Store, acts: seq<Act>): Store {
    if acts == [] then m
    else
      var before, last := PlainRun(m, acts[..|acts| - 1]), acts[|acts| - 1];
      if last.Batch? then PlainApply(before, last.batch) else before
  }

  ghost predicate TierRun(ts: seq<Tiers>, acts: seq<Act>) {
    && |ts| == |acts| + 1 && Disjoint(ts[0])
    && forall k {:trigger acts[k]} :: 0 <= k < |acts| ==> Acts(ts[k], acts[k], ts[k + 1])
  }

  lemma {:induction false} ActKeeps(t: Tiers, a: Act, t': Tiers)
    requires Disjoint(t) && Acts(t, a, t')
    ensures Disjoint(t') && Merged(t') == if a.Batch? then PlainApply(Merged(t), a.batch) else Merged(t)
  {
    match a
    case Batch(batch) => CleanWrite(t, batch);
    case Round(ms) => MovesKeep(t, ms);
  }

  /** Over every run of rebalancing rounds and clean batches, the tiers stay disjoint and
      every read gives what one plain map would that only saw the batches. */
  lemma {:induction false} TiersAreOneMap(ts: seq<Tiers>, acts: seq<Act>, n: nat)
    requires TierRun(ts, acts) && n < |ts|
    ensures Disjoint(ts[n]) && Merged(ts[n]) == PlainRun(Merged(ts[0]), acts[..n])
    ensures forall k {:trigger Lookup(ts[n], k)} :: Lookup(ts[n], k) == Get(PlainRun(Merged(ts[0]), acts[..n]), k)
  {
    if n > 0 {
      TiersAreOneMap(ts, acts, n - 1);
      assert acts[..n][..n - 1] == acts[..n - 1] && acts[..n][n - 1] == acts[n - 1];
      ActKeeps(ts[n - 1], acts[n - 1], ts[n]);
    }
    forall k: Bytes ensures Lookup(ts[n], k) == Get(Merged(ts[n]), k) {
      LookupIsMerged(ts[n], k);
    }
  }

  // ---- Runs in which a batch is not seen ----

  const CF: Bytes := [1]
  const KEY: Bytes := [2]

  function Once(value: Value): seq<Modify> {
    [Put(CF, KEY, value)]
  }

  lemma {:induction false} OnceWrites(t: Tiers, value: Value)
    ensures TierWrite(t, Once(value)) == t.(warm := t.warm[KeyWithCf(CF, KEY) := value])
    ensures PlainApply(Merged(t), Once(value)) == Merged(t)[KeyWithCf(CF, KEY) := value]
  {
    var batch := Once(value);
    assert batch[..0] == [] && Deleted(batch) == {} && Buffered(batch) == map[KeyWithCf(CF, KEY) := value];
    assert t.hot - {} == t.hot && t.warm - {} == t.warm && t.cold - {} == t.cold;
  }

  /** A key is put, moved to the hot tier and put again: readers keep the first value, and
      the key is in two tiers. */
  lemma {:induction false} HotValueHidesPut()
    ensures var k := KeyWithCf(CF, KEY);
            var put := TierWrite(Tiers(map[], map[], map[]), Once([3]));
            && CanMove(put, Move(k, Warm, Hot))
            && var t := MoveEntry(put, Move(k, Warm, Hot));
               && Lookup(TierWrite(t, Once([4])), k) == Some([3])
               && Get(PlainApply(Merged(t), Once([4])), k) == Some([4])
               && Disjoint(t) && !Disjoint(TierWrite(t, Once([4])))
  {
    OnceWrites(Tiers(map[], map[], map[]), [3]);
    var t := MoveEntry(TierWrite(Tiers(map[], map[], map[]), Once([3])), Move(KeyWithCf(CF, KEY), Warm, Hot));
    OnceWrites(t, [4]);
    assert KeyWithCf(CF, KEY) in t.hot;
  }

  /** A batch that puts a key and then deletes it leaves the key in store. */
  lemma {:induction false} LaterDeleteLost()
    ensures var k, batch := KeyWithCf(CF, KEY), [Put(CF, KEY, [3]), Delete(CF, KEY)];
            var t := Tiers(map[], map[], map[]);
            Lookup(TierWrite(t, batch), k) == Some([3]) && Get(PlainApply(Merged(t), batch), k) == None
  {
    var k, batch, t := KeyWithCf(CF, KEY), [Put(CF, KEY, [3]), Delete(CF, KEY)], Tiers(map[], map[], map[]);
    LastChangeTells(Merged(t), batch, k);
    OneMoreChange(batch, 0);
    OneMoreChange(batch, 1);
    assert batch[..0] == [] && batch[..2] == batch;
  }
}
