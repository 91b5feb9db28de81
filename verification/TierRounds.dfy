/** What a round of rebalancing makes of the access counts, and the counts of the accesses. */
module TierRounds {
  import opened Options
  import opened FiniteSets
  import opened ByteStrings
  import opened TierModel

  // ---- A round, by the counts ----

  /** The threshold for leaving the cold tier fits in 32 bits. */
  predicate NoOverflow(p: Policy) {
    p.promote + p.hysteresis <= 0xFFFF_FFFF
  }

  /** Where an entry with `n` accesses is after a round, by the tier it was in. From the cold tier
      an entry rises one tier; from the warm one it may go either way; from the hot one it falls
      two tiers or stays. */
  predicate Placed(p: Policy, n: U32, t: Tiers, t': Tiers, k: Bytes) {
    && (k in t.cold ==>
          && (k in t'.warm <==> n >= p.promote + p.hysteresis) && (k in t'.cold <==> n < p.promote + p.hysteresis)
          && k !in t'.hot)
    && (k in t.warm ==>
          && (k in t'.hot <==> n >= p.promote) && (k in t'.cold <==> n < p.promote && n <= p.demote)
          && (k in t'.warm <==> p.demote < n < p.promote))
    && (k in t.hot ==>
          && (k in t'.hot <==> n + p.hysteresis > p.demote || n >= p.promote)
          && (k in t'.cold <==> n + p.hysteresis <= p.demote && n < p.promote) && k !in t'.warm)
  }

  lemma {:induction false} RoundPlaces(p: Policy, counts: Counts, t: Tiers, h: seq<Move>, w: seq<Move>, c: seq<Move>,
                                       t': Tiers, k: Bytes)
    requires RoundOf(p, counts, t, h, w, c, t') && |h| + |w| + |c| < MAX_MOVE_PER_ROUND
    requires Disjoint(t) && NoOverflow(p)
    ensures Placed(p, CountOf(counts, k), t, t', k)
  {
    RoundSettles(p, counts, t, h, w, c, t', Hot, k);
    RoundSettles(p, counts, t, h, w, c, t', Warm, k);
    RoundSettles(p, counts, t, h, w, c, t', Cold, k);
    TargetPlaces(p, CountOf(counts, k));
    assert InTier(t', Hot, k) <==> k in t'.hot;
    assert InTier(t', Warm, k) <==> k in t'.warm;
    assert InTier(t', Cold, k) <==> k in t'.cold;
  }

  lemma {:induction false} TargetPlaces(p: Policy, n: U32)
    requires NoOverflow(p)
    ensures RoundTarget(p, n, Cold) == if n >= p.promote + p.hysteresis then Warm else Cold
    ensures RoundTarget(p, n, Warm) == if n >= p.promote then Hot else if n <= p.demote then Cold else Warm
    ensures RoundTarget(p, n, Hot) == if n + p.hysteresis > p.demote || n >= p.promote then Hot else Cold
  {
  }

  // ---- Counting accesses ----

  const MAX_U32: U32 := 0xFFFF_FFFF
  const ACCESS_CAPACITY := 50000

  /** The counts with one more access to `k`, saturating. */
  function Bumped(a: Counts, k: Bytes): Counts {
    a[k := if CountOf(a, k) == MAX_U32 then MAX_U32 else CountOf(a, k) + 1]
  }

  /** `b` is `a` after an access to `k`: one more counted, and exactly one other key
      forgotten if the table would otherwise be over its capacity. */
  ghost predicate Touched(a: Counts, k: Bytes, b: Counts) {
    if |Bumped(a, k)| <= ACCESS_CAPACITY then b == Bumped(a, k)
    else exists victim :: victim in Bumped(a, k) && victim != k && b == Bumped(a, k) - {victim}
  }

  /** The counts along the accesses `ks`, one after the other. */
  ghost predicate TouchTrace(trace: seq<Counts>, ks: seq<Bytes>) {
    |trace| == |ks| + 1 && forall i {:trigger ks[i]} :: 0 <= i < |ks| ==> Touched(trace[i], ks[i], trace[i + 1])
  }

  /** The accesses `ks` make the counts `b` of the counts `a`. */
  ghost predicate TouchedAll(trace: seq<Counts>, ks: seq<Bytes>, a: Counts, b: Counts) {
    TouchTrace(trace, ks) && trace[0] == a && trace[|ks|] == b
  }

  lemma {:induction false} OneMoreTouch(trace: seq<Counts>, ks: seq<Bytes>, k: Bytes, b: Counts)
    requires TouchTrace(trace, ks) && Touched(trace[|ks|], k, b)
    ensures TouchTrace(trace + [b], ks + [k])
  {
    forall i | 0 <= i < |ks + [k]| ensures Touched((trace + [b])[i], (ks + [k])[i], (trace + [b])[i + 1]) {
      if i < |ks| { assert (ks + [k])[i] == ks[i]; }
    }
  }


  function Saturated(n: nat): U32 {
    if n <= MAX_U32 then n else MAX_U32
  }

  /** Nothing is forgotten while no more keys are accessed than the table has room for. */
  lemma {:induction false} NothingForgotten(trace: seq<Counts>, ks: seq<Bytes>, n: nat)
    requires TouchTrace(trace, ks) && trace[0] == map[] && |set x | x in ks| <= ACCESS_CAPACITY && n <= |ks|
    ensures forall x :: x in trace[n] ==> x in ks
    ensures n < |ks| ==> trace[n + 1] == Bumped(trace[n], ks[n])
  {
    if n > 0 { NothingForgotten(trace, ks, n - 1); }
    if n < |ks| {
      RoomForAll(Bumped(trace[n], ks[n]), ks);
      assert Touched(trace[n], ks[n], trace[n + 1]);
    }
  }

  /** The counts along the accesses when nothing is forgotten. */
  predicate Complete(trace: seq<Counts>, ks: seq<Bytes>) {
    && |trace| == |ks| + 1 && trace[0] == map[]
    && forall i {:trigger ks[i]} :: 0 <= i < |ks| ==> trace[i + 1] == Bumped(trace[i], ks[i])
  }

  /** Then the counts are the numbers of accesses, saturating. */
  lemma {:induction false} CountsAreAccesses(trace: seq<Counts>, ks: seq<Bytes>, n: nat, k: Bytes)
    requires Complete(trace, ks) && n <= |ks|
    ensures CountOf(trace[n], k) == Saturated(Accesses(ks, n, k))
  {
    if n > 0 {
      CountsAreAccesses(trace, ks, n - 1, k);
      BumpCounts(trace[n - 1], ks[n - 1], k);
    }
  }

  /** How often `k` is among the first `n` accesses. */
  function Accesses(ks: seq<Bytes>, n: nat, k: Bytes): nat
    requires n <= |ks|
  {
    if n == 0 then 0 else Accesses(ks, n - 1, k) + if ks[n - 1] == k then 1 else 0
  }

  lemma {:induction false} BumpCounts(a: Counts, x: Bytes, k: Bytes)
    ensures CountOf(Bumped(a, x), k) == if x == k then Saturated(CountOf(a, k) + 1) else CountOf(a, k)
  {
  }

  lemma {:induction false} RoomForAll(counts: Counts, ks: seq<Bytes>)
    requires forall x :: x in counts ==> x in ks
    ensures |counts| <= |set x | x in ks|
  {
    SubsetSize(counts.Keys, set x | x in ks);
    assert |counts| == |counts.Keys|;
  }

  /** Popular entries become hot. Of the accesses since the last round, which touched no more keys
      than the table has room for: an entry of the warm tier is in the hot tier after the next
      round, if that is not cut short, if and only if the threshold was reached, and its value is
      the same. */
  lemma {:induction false} PopularBecomesHot(p: Policy, trace: seq<Counts>, ks: seq<Bytes>, counts: Counts, t: Tiers,
                                             h: seq<Move>, w: seq<Move>, c: seq<Move>, t': Tiers, k: Bytes)
    requires TouchedAll(trace, ks, map[], counts) && |set x | x in ks| <= ACCESS_CAPACITY
    requires RoundOf(p, counts, t, h, w, c, t') && |h| + |w| + |c| < MAX_MOVE_PER_ROUND
    requires Disjoint(t) && NoOverflow(p) && k in t.warm
    ensures k in t'.hot <==> Accesses(ks, |ks|, k) >= p.promote
    ensures Accesses(ks, |ks|, k) >= p.promote ==> t'.hot[k] == t.warm[k]
  {
    forall i | 0 <= i < |ks| ensures trace[i + 1] == Bumped(trace[i], ks[i]) {
      NothingForgotten(trace, ks, i);
    }
    CountsAreAccesses(trace, ks, |ks|, k);
    RoundPlaces(p, counts, t, h, w, c, t', k);
    MovesKeep(t, h);
    MovesKeep(MoveAll(t, h), w);
    MovesKeep(MoveAll(MoveAll(t, h), w), c);
    LookupIsMerged(t, k);
    LookupIsMerged(t', k);
  }
}
