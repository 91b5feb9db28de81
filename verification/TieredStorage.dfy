/** The storage object: three tiers and access counts, updated in place. */
module TieredStorages {
  import opened Options
  import opened ByteStrings
  import opened TierModel
  import opened TierRounds
  import KvIterator

  lemma {:induction false} OtherKey(m: Counts, k: Bytes)
    requires k in m && |m| > 1
    ensures exists v :: v in m.Keys - {k}
  {
    assert m.Keys - {k} == {} ==> m.Keys == {k};
    assert |{k}| == 1;
  }

  /** The keys a batch puts, in order. */
  function PutKeys(batch: seq<Modify>): seq<Bytes> {
    if batch == [] then []
    else PutKeys(batch[..|batch| - 1]) + if batch[|batch| - 1].Put? then [StoredKey(batch[|batch| - 1])] else []
  }

  lemma {:induction false} OneMorePut(batch: seq<Modify>, i: nat)
    requires i < |batch|
    ensures PutKeys(batch[..i + 1]) == PutKeys(batch[..i]) + if batch[i].Put? then [StoredKey(batch[i])] else []
  {
    assert batch[..i + 1][..i] == batch[..i];
  }

  class TieredStorage {
    var hot: Store
    var warm: Store
    var cold: Store
    var access: Counts
    const policy: Policy

    constructor (policy: Policy)
      ensures View() == Tiers(map[], map[], map[]) && access == map[] && this.policy == policy
    {
      hot, warm, cold, access, this.policy := map[], map[], map[], map[], policy;
    }

    function View(): Tiers
      reads this
    {
      Tiers(hot, warm, cold)
    }

    /** Counts one more access; a full table forgets one other key. */
    method Touch(k: Bytes)
      modifies this`access
      ensures Touched(old(access), k, access)
    {
      access := Bumped(access, k);
      if |access| > ACCESS_CAPACITY {
        OtherKey(access, k);
        var victim :| victim in access.Keys - {k};
        access := access - {victim};
      }
    }

    /** Reads hot, then warm, then cold, and changes nothing but the access counts, and
        these only for a key that is there. */
    method GetCf(cf: Bytes, key: Bytes) returns (r: Option<Value>)
      modifies this`access
      ensures r == Get(Merged(View()), KeyWithCf(cf, key)) && View() == old(View())
      ensures if r.None? then access == old(access) else Touched(old(access), KeyWithCf(cf, key), access)
    {
      var k := KeyWithCf(cf, key);
      LookupIsMerged(View(), k);
      if k in hot {
        Touch(k);
        return Some(hot[k]);
      }
      if k in warm {
        Touch(k);
        return Some(warm[k]);
      }
      if k in cold {
        Touch(k);
        return Some(cold[k]);
      }
      r := None;
    }

    method DeleteEverywhere(k: Bytes)
      modifies this`hot, this`warm, this`cold
      ensures View() == DeleteAll(old(View()), {k})
    {
      hot := hot - {k};
      warm := warm - {k};
      cold := cold - {k};
    }

    method Count(k: Bytes, ghost trace: seq<Counts>, ghost ks: seq<Bytes>, ghost start: Counts)
      returns (ghost longer: seq<Counts>)
      requires TouchedAll(trace, ks, start, access)
      modifies this`access
      ensures TouchedAll(longer, ks + [k], start, access)
    {
      Touch(k);
      OneMoreTouch(trace, ks, k, access);
      longer := trace + [access];
    }

    /** Deletes at once and in all tiers; puts are collected and go to the warm tier
        together at the end, each counted as an access. */
    method Write(batch: seq<Modify>) returns (ghost trace: seq<Counts>)
      modifies this
      ensures View() == TierWrite(old(View()), batch)
      ensures TouchedAll(trace, PutKeys(batch), old(access), access)
    {
      ghost var t := View();
      var wb: Store := map[];
      trace := [access];
      for i := 0 to |batch|
        invariant Written(t, batch, i, View(), wb)
        invariant TouchedAll(trace, PutKeys(batch[..i]), old(access), access)
      {
        WrittenMore(t, batch, i, View(), wb);
        OneMorePut(batch, i);
        var k := StoredKey(batch[i]);
        if batch[i].Put? {
          wb := wb[k := batch[i].value];
          trace := Count(k, trace, PutKeys(batch[..i]), old(access));
        } else {
          DeleteEverywhere(k);
        }
      }
      assert batch[..|batch|] == batch;
      warm := warm + wb;
    }

    method MoveTo(k: Bytes, v: Value, tier: Tier, target: Tier)
      requires CanMove(View(), Move(k, tier, target)) && Db(View(), tier)[k] == v
      modifies this`hot, this`warm, this`cold
      ensures View() == MoveEntry(old(View()), Move(k, tier, target))
    {
      match target {
        case Hot => hot := hot[k := v];
        case Warm => warm := warm[k := v];
        case Cold => cold := cold[k := v];
      }
      match tier {
        case Hot => hot := hot - {k};
        case Warm => warm := warm - {k};
        case Cold => cold := cold - {k};
      }
    }

    /** Moves one entry to where it belongs, unless it is there already. */
    method PlaceEntry(tier: Tier, k: Bytes, v: Value) returns (placed: bool, ghost m: Move)
      requires Get(Db(View(), tier), k) == Some(v)
      modifies this`hot, this`warm, this`cold
      ensures m == Move(k, tier, Wanted(policy, access, tier, k)) && (placed <==> m.dst != tier)
      ensures placed ==> CanMove(old(View()), m) && View() == MoveEntry(old(View()), m)
      ensures !placed ==> View() == old(View())
    {
      var target := Decide(policy, tier, CountOf(access, k));
      m := Move(k, tier, target);
      placed := target != tier;
      if placed { MoveTo(k, v, tier, target); }
    }

    /** Scans one tier as it is now, in key order, and moves what belongs elsewhere until
        the round is full. */
    method RebalanceTier(tier: Tier, moved: nat) returns (total: nat, ghost moves: seq<Move>)
      requires moved <= MAX_MOVE_PER_ROUND
      modifies this`hot, this`warm, this`cold
      ensures total == moved + |moves|
      ensures Pass(policy, access, tier, old(View()), moves, MAX_MOVE_PER_ROUND - moved, View())
    {
      ghost var t := View();
      var entries := Db(View(), tier);
      var keys := Snapshot(entries);
      total, moves := moved, [];
      var i := 0;
      ScanStart(policy, access, t, tier, keys);
      while i < |keys| && total < MAX_MOVE_PER_ROUND
        invariant 0 <= i <= |keys| && total == moved + |moves| <= MAX_MOVE_PER_ROUND
        invariant Scanned(policy, access, t, moves, View(), tier, keys, i)
      {
        ghost var now := View();
        var placed;
        ghost var m;
        placed, m := PlaceEntry(tier, keys[i], entries[keys[i]]);
        if placed {
          ScanMove(policy, access, t, moves, now, tier, keys, i, m);
          total, moves := total + 1, moves + [m];
        } else {
          ScanSkip(policy, access, t, moves, now, tier, keys, i);
        }
        i := i + 1;
      }
      ScanEnd(policy, access, t, moves, View(), tier, keys, i, MAX_MOVE_PER_ROUND - moved);
    }

    /** One round over the hot, the warm and the cold tier, with at most a thousand moves;
        then the counts start anew. If the round is not cut short, every entry is where the
        three scans send it, and that is decided by its count and the thresholds. Disjoint
        tiers stay disjoint and mean the same map. */
    method RebalanceOnce() returns (ghost h: seq<Move>, ghost w: seq<Move>, ghost c: seq<Move>)
      modifies this
      ensures RoundOf(policy, old(access), old(View()), h, w, c, View()) && access == map[]
      ensures |h| + |w| + |c| < MAX_MOVE_PER_ROUND ==>
                forall y, k {:trigger InTier(View(), y, k)} ::
                  InTier(View(), y, k) <==> Destined(policy, old(access), old(View()), y, k)
      ensures old(Disjoint(View())) ==> Disjoint(View()) && Merged(View()) == old(Merged(View()))
      ensures old(Disjoint(View())) && NoOverflow(policy) && |h| + |w| + |c| < MAX_MOVE_PER_ROUND ==>
                forall k {:trigger CountOf(old(access), k)} ::
                  Placed(policy, CountOf(old(access), k), old(View()), View(), k)
    {
      ghost var t, counts := View(), access;
      var moved := 0;
      moved, h := RebalanceTier(Hot, moved);
      moved, w := RebalanceTier(Warm, moved);
      moved, c := RebalanceTier(Cold, moved);
      assert RoundOf(policy, counts, t, h, w, c, View());
      RoundKeeps(policy, counts, t, h, w, c, View());
      if Disjoint(t) && NoOverflow(policy) && |h| + |w| + |c| < MAX_MOVE_PER_ROUND {
        forall k ensures Placed(policy, CountOf(counts, k), t, View(), k) {
          RoundPlaces(policy, counts, t, h, w, c, View(), k);
        }
      }
      access := map[];
    }
  }

  /** What a round brings about. */
  lemma {:induction false} RoundKeeps(p: Policy, counts: Counts, t: Tiers, h: seq<Move>, w: seq<Move>, c: seq<Move>,
                                      t': Tiers)
    requires RoundOf(p, counts, t, h, w, c, t')
    ensures |h| + |w| + |c| < MAX_MOVE_PER_ROUND ==>
              forall y, k {:trigger InTier(t', y, k)} :: InTier(t', y, k) <==> Destined(p, counts, t, y, k)
    ensures Disjoint(t) ==> Disjoint(t') && Merged(t') == Merged(t)
  {
    if |h| + |w| + |c| < MAX_MOVE_PER_ROUND {
      forall y: Tier, k: Bytes ensures InTier(t', y, k) <==> Destined(p, counts, t, y, k) {
        RoundSettles(p, counts, t, h, w, c, t', y, k);
      }
    }
    if Disjoint(t) {
      MovesKeep(t, h);
      MovesKeep(MoveAll(t, h), w);
      MovesKeep(MoveAll(MoveAll(t, h), w), c);
    }
  }

  /** The keys of a tier in the order in which an iterator visits them. */
  method Snapshot(entries: Store) returns (keys: seq<Bytes>)
    ensures SortedKeysOf(entries, keys)
  {
    keys := KvIterator.SortedKeys(entries.Keys);
    forall j | 0 <= j < |keys| ensures keys[j] in entries {
      assert keys[j] in keys;
    }
    forall i, j | 0 <= i < j < |keys| ensures Less(keys[i], keys[j]) {
    }
  }

  ghost predicate SortedKeysOf(entries: Store, keys: seq<Bytes>) {
    && (forall i, j :: 0 <= i < j < |keys| ==> Less(keys[i], keys[j]))
    && (forall j :: 0 <= j < |keys| ==> keys[j] in entries) && forall k :: k in entries ==> k in keys
  }

  lemma {:induction false} ExtendMoves(t: Tiers, ms: seq<Move>, m: Move)
    requires CanMoveAll(t, ms) && CanMove(MoveAll(t, ms), m)
    ensures CanMoveAll(t, ms + [m]) && MoveAll(t, ms + [m]) == MoveEntry(MoveAll(t, ms), m)
  {
    assert (ms + [m])[..|ms|] == ms;
  }

  // ---- The state of a scan ----

  /** The entries from place `i` on are as they were, and come behind all that moved. */
  ghost predicate Ahead(t: Tiers, ms: seq<Move>, now: Tiers, tier: Tier, keys: seq<Bytes>, i: nat) {
    && (forall j :: i <= j < |keys| ==>
        keys[j] in Db(t, tier) && Get(Db(now, tier), keys[j]) == Some(Db(t, tier)[keys[j]]))
    && (forall x, j :: 0 <= x < |ms| && i <= j < |keys| ==> Less(ms[x].key, keys[j]))
  }

  /** Of the entries before place `i`, the misplaced ones have moved. */
  ghost predicate Behind(p: Policy, counts: Counts, tier: Tier, ms: seq<Move>, keys: seq<Bytes>, i: nat) {
    forall j :: 0 <= j < i && j < |keys| && Wanted(p, counts, tier, keys[j]) != tier ==> KeyMoved(ms, keys[j])
  }

  ghost predicate Scanned(p: Policy, counts: Counts, t: Tiers, ms: seq<Move>, now: Tiers, tier: Tier, keys: seq<Bytes>,
                          i: nat) {
    && CanMoveAll(t, ms) && now == MoveAll(t, ms) && Placing(p, counts, tier, ms) && SortedKeysOf(Db(t, tier), keys)
    && Ahead(t, ms, now, tier, keys, i) && Behind(p, counts, tier, ms, keys, i)
  }

  lemma {:induction false} ScanStart(p: Policy, counts: Counts, t: Tiers, tier: Tier, keys: seq<Bytes>)
    requires SortedKeysOf(Db(t, tier), keys)
    ensures Scanned(p, counts, t, [], t, tier, keys, 0)
  {
  }

  lemma {:induction false} ScanSkip(p: Policy, counts: Counts, t: Tiers, ms: seq<Move>, now: Tiers, tier: Tier,
                                    keys: seq<Bytes>, i: nat)
    requires Scanned(p, counts, t, ms, now, tier, keys, i) && i < |keys| && Wanted(p, counts, tier, keys[i]) == tier
    ensures Scanned(p, counts, t, ms, now, tier, keys, i + 1)
  {
  }

  lemma {:induction false} ScanMove(p: Policy, counts: Counts, t: Tiers, ms: seq<Move>, now: Tiers, tier: Tier,
                                    keys: seq<Bytes>, i: nat, m: Move)
    requires Scanned(p, counts, t, ms, now, tier, keys, i) && i < |keys|
    requires m == Move(keys[i], tier, Wanted(p, counts, tier, keys[i])) && m.dst != tier && CanMove(now, m)
    ensures Scanned(p, counts, t, ms + [m], MoveEntry(now, m), tier, keys, i + 1)
  {
    ExtendMoves(t, ms, m);
    PlacingMore(p, counts, tier, ms, keys, i, m);
    AheadMoves(t, ms, now, tier, keys, i, m);
    forall j | 0 <= j < i + 1 && Wanted(p, counts, tier, keys[j]) != tier ensures KeyMoved(ms + [m], keys[j]) {
      KeyMovedLast(ms, m, keys[j]);
    }
  }

  lemma {:induction false} PlacingMore(p: Policy, counts: Counts, tier: Tier, ms: seq<Move>, keys: seq<Bytes>, i: nat,
                                       m: Move)
    requires Placing(p, counts, tier, ms) && i < |keys| && (forall x :: 0 <= x < |ms| ==> Less(ms[x].key, keys[i]))
    requires m == Move(keys[i], tier, Wanted(p, counts, tier, keys[i])) && m.dst != tier
    ensures Placing(p, counts, tier, ms + [m])
  {
    assert forall x :: 0 <= x < |ms| ==> (ms + [m])[x] == ms[x];
  }

  lemma {:induction false} AheadMoves(t: Tiers, ms: seq<Move>, now: Tiers, tier: Tier, keys: seq<Bytes>, i: nat,
                                      m: Move)
    requires Ahead(t, ms, now, tier, keys, i) && SortedKeysOf(Db(t, tier), keys) && i < |keys|
    requires m.key == keys[i] && m.src == tier && CanMove(now, m)
    ensures Ahead(t, ms + [m], MoveEntry(now, m), tier, keys, i + 1)
  {
    var now' := MoveEntry(now, m);
    LessIrreflexive(keys[i]);
    forall j | i + 1 <= j < |keys| ensures Get(Db(now', tier), keys[j]) == Some(Db(t, tier)[keys[j]]) {
      assert Less(keys[i], keys[j]);
    }
    forall x, j | 0 <= x < |ms + [m]| && i + 1 <= j < |keys| ensures Less((ms + [m])[x].key, keys[j]) {
      assert (ms + [m])[x] == if x < |ms| then ms[x] else m;
    }
  }

  lemma {:induction false} ScanEnd(p: Policy, counts: Counts, t: Tiers, ms: seq<Move>, now: Tiers, tier: Tier,
                                   keys: seq<Bytes>, i: nat, room: nat)
    requires Scanned(p, counts, t, ms, now, tier, keys, i) && i <= |keys| && |ms| <= room
    requires (i < |keys| ==> |ms| == room)
    ensures Pass(p, counts, tier, t, ms, room, now)
  {
    forall k | k in Db(t, tier) && Wanted(p, counts, tier, k) != tier && !KeyMoved(ms, k)
      ensures |ms| == room && forall x :: 0 <= x < |ms| ==> Less(ms[x].key, k)
    {
      var j :| 0 <= j < |keys| && keys[j] == k;
    }
  }
}
