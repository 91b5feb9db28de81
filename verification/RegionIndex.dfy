/** The sorted index routes every key to the region that holds it, over every
    sequence of splits. */
module RegionIndex {
  import opened ByteStrings
  import opened Options
  import opened Regions

  predicate Sorted(s: seq<Range>) {
    forall i, j :: 0 <= i < j < |s| ==> AtMost(s[i].0, s[j].0)
  }

  /** The id in the last pair that starts at `k`. */
  function LastAt(s: seq<Range>, k: Bytes): Option<nat> {
    if s == [] then None
    else if s[|s| - 1].0 == k then Some(s[|s| - 1].1)
    else LastAt(s[..|s| - 1], k)
  }

  // ---- What inserting and removing pairs does ----

  lemma {:induction false} InsertElements(s: seq<Range>, e: Range, x: Range)
    ensures x in Insert(s, e) <==> x in s || x == e
  {
    if !(s == [] || AtMost(s[|s| - 1].0, e.0)) {
      InsertElements(s[..|s| - 1], e, x);
      assert s == s[..|s| - 1] + [s[|s| - 1]];
    }
  }

  lemma {:induction false} AtMostTransitive(a: Bytes, b: Bytes, c: Bytes)
    requires AtMost(a, b) && AtMost(b, c)
    ensures AtMost(a, c)
  {
    if a != b && b != c { LessTransitive(a, b, c); }
  }

  lemma {:induction false} SortedAppend(s: seq<Range>, e: Range)
    requires Sorted(s) && forall x :: x in s ==> AtMost(x.0, e.0)
    ensures Sorted(s + [e])
  {
    forall i, j | 0 <= i < j < |s| + 1 ensures AtMost((s + [e])[i].0, (s + [e])[j].0) {
      assert j == |s| ==> s[i] in s;
    }
  }

  lemma {:induction false} InsertSorted(s: seq<Range>, e: Range)
    requires Sorted(s)
    ensures Sorted(Insert(s, e))
    decreases |s|
  {
    if s == [] {
    } else {
      var last := s[|s| - 1];
      if AtMost(last.0, e.0) {
        forall x | x in s ensures AtMost(x.0, e.0) {
          AtMostTransitive(x.0, last.0, e.0);
        }
        SortedAppend(s, e);
      } else {
        var front := s[..|s| - 1];
        InsertSorted(front, e);
        LessTotal(e.0, last.0);
        forall x | x in Insert(front, e) ensures AtMost(x.0, last.0) {
          InsertElements(front, e, x);
        }
        SortedAppend(Insert(front, e), last);
      }
    }
  }

  /** Sorting what is sorted changes nothing. */
  lemma {:induction false} SortOfSorted(s: seq<Range>)
    requires Sorted(s)
    ensures Sort(s) == s
    decreases |s|
  {
    if s != [] {
      SortOfSorted(s[..|s| - 1]);
      assert s == s[..|s| - 1] + [s[|s| - 1]];
      if |s| > 1 { assert AtMost(s[..|s| - 1][|s| - 2].0, s[|s| - 1].0); }
    }
  }

  lemma {:induction false} SortOfAppend(s: seq<Range>, e: Range)
    requires Sorted(s)
    ensures Sort(s + [e]) == Insert(s, e)
  {
    assert (s + [e])[..|s|] == s;
    SortOfSorted(s);
  }

  lemma {:induction false} WithoutElements(s: seq<Range>, id: nat, x: Range)
    ensures x in Without(s, id) <==> x in s && x.1 != id
    decreases |s|
  {
    if s != [] {
      WithoutElements(s[..|s| - 1], id, x);
      assert s == s[..|s| - 1] + [s[|s| - 1]];
    }
  }

  lemma {:induction false} WithoutSorted(s: seq<Range>, id: nat)
    requires Sorted(s)
    ensures Sorted(Without(s, id))
    decreases |s|
  {
    if s != [] {
      var front, last := s[..|s| - 1], s[|s| - 1];
      WithoutSorted(front, id);
      forall x | x in Without(front, id) ensures AtMost(x.0, last.0) {
        WithoutElements(front, id, x);
      }
      SortedAppend(Without(front, id), last);
      assert Without(front, id) + [] == Without(front, id);
    }
  }

  lemma {:induction false} LastAtInsert(s: seq<Range>, e: Range, k: Bytes)
    requires Sorted(s)
    ensures LastAt(Insert(s, e), k) == if k == e.0 then Some(e.1) else LastAt(s, k)
    decreases |s|
  {
    if s == [] || AtMost(s[|s| - 1].0, e.0) {
      assert (s + [e])[..|s|] == s;
    } else {
      var front, last := s[..|s| - 1], s[|s| - 1];
      LastAtInsert(front, e, k);
      assert (Insert(front, e) + [last])[..|Insert(front, e)|] == Insert(front, e);
    }
  }

  lemma {:induction false} LastAtWithout(s: seq<Range>, id: nat, k: Bytes)
    requires LastAt(s, k) != Some(id)
    ensures LastAt(Without(s, id), k) == LastAt(s, k)
    decreases |s|
  {
    if s != [] {
      var front, last := s[..|s| - 1], s[|s| - 1];
      if last.0 != k { LastAtWithout(front, id, k); }
      assert (Without(front, id) + [last])[..|Without(front, id)|] == Without(front, id);
      assert Without(front, id) + [] == Without(front, id);
    }
  }

  lemma {:induction false} LastAtIsElement(s: seq<Range>, k: Bytes)
    ensures LastAt(s, k).Some? ==> (k, LastAt(s, k).value) in s
    ensures LastAt(s, k).None? ==> forall id: nat :: (k, id) !in s
    decreases |s|
  {
    if s != [] {
      LastAtIsElement(s[..|s| - 1], k);
      assert s == s[..|s| - 1] + [s[|s| - 1]];
    }
  }

  /** The floor of a key is the last pair at its start, and starts latest among those
      that do not start after the key. */
  lemma {:induction false} FloorIsLast(s: seq<Range>, key: Bytes)
    requires Sorted(s)
    ensures match Floor(s, key)
            case Some(e) =>
              e in s && AtMost(e.0, key) && LastAt(s, e.0) == Some(e.1)
              && (forall x :: x in s && AtMost(x.0, key) ==> AtMost(x.0, e.0))
            case None => forall x :: x in s ==> !AtMost(x.0, key)
    decreases |s|
  {
    if s != [] {
      var front, last := s[..|s| - 1], s[|s| - 1];
      assert s == front + [last];
      if !AtMost(last.0, key) { FloorIsLast(front, key); }
    }
  }

  // ---- The index and the regions agree ----

  /** Every region is in the index under its start key, nothing else is, and the index is
      sorted. */
  ghost predicate Lists(m: Meta) {
    && Sorted(m.ranges)
    && (forall x {:trigger x in m.ranges} :: x in m.ranges ==> x.1 in m.regions && m.regions[x.1].startKey == x.0)
    && (forall id {:trigger id in m.regions} :: id in m.regions ==>
        m.regions[id].id == id && (m.regions[id].startKey, id) in m.ranges)
  }

  /** Of the regions that share a start key, the one listed last holds that key. */
  ghost predicate LastHolds(m: Meta) {
    forall k {:trigger LastAt(m.ranges, k)} :: LastAt(m.ranges, k).Some? ==>
      Holds(m.regions, LastAt(m.ranges, k).value, k)
  }

  lemma {:induction false} ListsWith(m: Meta, r: Region, ranges: seq<Range>)
    requires Lists(m) && Sorted(ranges)
    requires forall x: Range :: x in ranges <==> (x in m.ranges && x.1 != r.id) || x == (r.startKey, r.id)
    ensures Lists(Meta(m.regions[r.id := r], ranges))
  {
  }

  lemma {:induction false} SetRegionLists(m: Meta, r: Region)
    requires Lists(m)
    ensures Lists(SetRegion(m, r))
    ensures SetRegion(m, r).ranges == Insert(Without(m.ranges, r.id), (r.startKey, r.id))
  {
    var rest, e := Without(m.ranges, r.id), (r.startKey, r.id);
    WithoutSorted(m.ranges, r.id);
    SortOfAppend(rest, e);
    InsertSorted(rest, e);
    forall x: Range ensures x in Insert(rest, e) <==> (x in m.ranges && x.1 != r.id) || x == e {
      InsertElements(rest, e, x);
      WithoutElements(m.ranges, r.id, x);
    }
    ListsWith(m, r, Insert(rest, e));
  }

  lemma {:induction false} RemoveRegionLists(m: Meta, id: nat)
    requires Lists(m)
    ensures Lists(RemoveRegion(m, id))
  {
    WithoutSorted(m.ranges, id);
    forall x: Range ensures x in Without(m.ranges, id) <==> x in m.ranges && x.1 != id {
      WithoutElements(m.ranges, id, x);
    }
  }

  /** `FindRegionByKey` answers with the one region that holds the key. */
  ghost predicate Routes(m: Meta, key: Bytes) {
    && FindRegionByKey(m, key).Some?
    && var r := FindRegionByKey(m, key).value;
       r.id in m.regions && m.regions[r.id] == r && forall id :: Holds(m.regions, id, key) <==> id == r.id
  }

  lemma {:induction false} InBetween(a: Bytes, b: Bytes, key: Bytes, r: Region)
    requires r.startKey == a && AtMost(a, b) && AtMost(b, key) && KeyInRegion(key, r)
    ensures KeyInRegion(b, r)
  {
    if Less(b, a) { LessAsymmetric(b, a); LessIrreflexive(a); }
    if r.endKey != [] && b != key { LessTransitive(b, key, r.endKey); }
  }

  /** An index that agrees with a tiling routes every key. */
  lemma {:induction false} FindRoutes(m: Meta, key: Bytes)
    requires Lists(m) && LastHolds(m) && Tiles(m.regions)
    ensures Routes(m, key)
  {
    assert HeldOnce(m.regions, key);
    var t :| Holds(m.regions, t, key) && forall j :: Holds(m.regions, j, key) ==> j == t;
    var start := m.regions[t].startKey;
    assert AtMost(start, key) by { LessTotal(start, key); }
    assert (start, t) in m.ranges;
    FloorIsLast(m.ranges, key);
    var e := Floor(m.ranges, key).value;
    assert Holds(m.regions, e.1, e.0);
    InBetween(start, e.0, key, m.regions[t]);
    assert HeldOnce(m.regions, e.0) && Holds(m.regions, t, e.0);
    assert e.1 == t;
  }

  // ---- Splits ----

  /** Both halves hold their start keys, unless the lower half is empty. */
  lemma {:induction false} HalvesHoldStarts(r: Region, req: SplitRequest, peers: seq<Peer>)
    requires req.splitKey != [] && KeyInRegion(req.splitKey, r)
    ensures KeyInRegion(req.splitKey, CreateNewRegion(r, req, peers))
    ensures req.splitKey != r.startKey ==> KeyInRegion(r.startKey, Lower(r, req))
  {
    LessIrreflexive(req.splitKey);
    LessIrreflexive(r.startKey);
    LessTotal(r.startKey, req.splitKey);
  }

  /** The last pair at each start key before the split is still there after it, unless a
      half starts at that key. */
  lemma {:induction false} LastAtAfterSplit(m: Meta, r: Region, req: SplitRequest, peers: seq<Peer>, k: Bytes)
    requires Lists(m) && LastHolds(m) && Splittable(m.regions, r, req.splitKey) && OverwritesNothing(m.regions, r, req)
    ensures LastAt(SetRegion(SetRegion(m, Lower(r, req)), CreateNewRegion(r, req, peers)).ranges, k) ==
            if k == req.splitKey then Some(req.newRegionId) else if k == r.startKey then Some(r.id)
              else LastAt(m.ranges, k)
    ensures k == r.startKey != req.splitKey ==> r.id != req.newRegionId
    ensures k != r.startKey && LastAt(m.ranges, k).Some? ==>
              LastAt(m.ranges, k).value != r.id && LastAt(m.ranges, k).value != req.newRegionId
  {
    var lower, upper := Lower(r, req), CreateNewRegion(r, req, peers);
    var m1 := SetRegion(m, lower);
    SetRegionLists(m, lower);
    SetRegionLists(m1, upper);
    HalvesHoldStarts(r, req, peers);
    LastAtIsElement(m.ranges, k);
    assert k != r.startKey && LastAt(m.ranges, k).Some? ==> Holds(m.regions, LastAt(m.ranges, k).value, k);
    WithoutSorted(m.ranges, r.id);
    LastAtInsert(Without(m.ranges, r.id), (r.startKey, r.id), k);
    if k != r.startKey { LastAtWithout(m.ranges, r.id, k); }
    WithoutSorted(m1.ranges, req.newRegionId);
    LastAtInsert(Without(m1.ranges, req.newRegionId), (req.splitKey, req.newRegionId), k);
    if k != req.splitKey { LastAtWithout(m1.ranges, req.newRegionId, k); }
  }

  /** The pair that is last at `k` after the split names a region that holds `k`. */
  lemma {:induction false} HolderKept(m: Meta, r: Region, req: SplitRequest, peers: seq<Peer>, k: Bytes,
                                      last: Option<nat>)
    requires Splittable(m.regions, r, req.splitKey)
    requires last == if k == req.splitKey then Some(req.newRegionId) else if k == r.startKey then Some(r.id)
               else LastAt(m.ranges, k)
    requires k == r.startKey != req.splitKey ==> r.id != req.newRegionId
    requires k != r.startKey && LastAt(m.ranges, k).Some? ==>
               var id := LastAt(m.ranges, k).value; Holds(m.regions, id, k) && id != r.id && id != req.newRegionId
    ensures last.Some? ==> Holds(Split(m.regions, r, req, peers), last.value, k)
  {
    HalvesHoldStarts(r, req, peers);
  }

  /** A split of a stored region that overwrites no live region keeps index and tiling. */
  lemma {:induction false} SplitKeeps(m: Meta, r: Region, req: SplitRequest, peers: seq<Peer>)
    requires Lists(m) && LastHolds(m) && Tiles(m.regions)
    requires Splittable(m.regions, r, req.splitKey) && OverwritesNothing(m.regions, r, req)
    ensures var m' := SetRegion(SetRegion(m, Lower(r, req)), CreateNewRegion(r, req, peers));
            Lists(m') && LastHolds(m') && Tiles(m'.regions)
  {
    var lower, upper := Lower(r, req), CreateNewRegion(r, req, peers);
    var m' := SetRegion(SetRegion(m, lower), upper);
    SetRegionLists(m, lower);
    SetRegionLists(SetRegion(m, lower), upper);
    SplitTilesIff(m.regions, r, req, peers);
    assert m'.regions == Split(m.regions, r, req, peers);
    forall k: Bytes ensures LastAt(m'.ranges, k).Some? ==> Holds(m'.regions, LastAt(m'.ranges, k).value, k) {
      LastAtAfterSplit(m, r, req, peers, k);
      HolderKept(m, r, req, peers, k, LastAt(m'.ranges, k));
    }
  }

  // ---- Runs of splits ----

  datatype SplitOp = SplitOp(storeId: nat, region: Region, req: SplitRequest, chosen: Option<seq<Peer>>)

  function Apply(m: Meta, op: SplitOp): Meta {
    ExecuteSplit(m, op.storeId, op.region, op.req, op.chosen)
  }

  /** The region is the stored one, and the id for the upper half is fresh or belongs to
      a region without keys. */
  ghost predicate Legal(m: Meta, op: SplitOp) {
    op.region.id in m.regions && m.regions[op.region.id] == op.region && OverwritesNothing(m.regions, op.region, op.req)
  }

  ghost predicate Routed(m: Meta) {
    Lists(m) && LastHolds(m) && Tiles(m.regions)
  }

  /** One region without bounds. */
  predicate Whole(m: Meta) {
    |m.ranges| == 1 && m.regions.Keys == {m.ranges[0].1} &&
    var r := m.regions[m.ranges[0].1]; r.id == m.ranges[0].1 && r.startKey == r.endKey == m.ranges[0].0 == []
  }

  ghost predicate SplitRun(ms: seq<Meta>, ops: seq<SplitOp>) {
    && |ms| == |ops| + 1 && Whole(ms[0])
    && forall k {:trigger ops[k]} :: 0 <= k < |ops| ==> Legal(ms[k], ops[k]) && ms[k + 1] == Apply(ms[k], ops[k])
  }

  lemma {:induction false} WholeLists(m: Meta, id: nat)
    requires Whole(m) && m.ranges == [([], id)]
    ensures Lists(m)
  {
    assert m.ranges[0] == ([], id);
  }

  lemma {:induction false} WholeLastHolds(m: Meta, id: nat, k: Bytes)
    requires Whole(m) && m.ranges == [([], id)]
    ensures LastAt(m.ranges, k).Some? ==> Holds(m.regions, LastAt(m.ranges, k).value, k)
  {
    assert m.ranges[..0] == [];
  }

  lemma {:induction false} WholeHoldsOnce(m: Meta, id: nat, key: Bytes)
    requires Whole(m) && m.ranges == [([], id)]
    ensures HeldOnce(m.regions, key)
  {
    var rs := m.regions;
    assert id in rs && rs[id].startKey == [] && rs[id].endKey == [];
    assert Holds(rs, id, key);
    forall j | Holds(rs, j, key) ensures j == id {
      assert j in rs.Keys;
    }
  }

  lemma {:induction false} WholeTiles(m: Meta)
    requires Whole(m)
    ensures Routed(m)
  {
    var id := m.ranges[0].1;
    assert m.ranges == [([], id)];
    WholeLists(m, id);
    forall k: Bytes
      ensures (LastAt(m.ranges, k).Some? ==> Holds(m.regions, LastAt(m.ranges, k).value, k)) && HeldOnce(m.regions, k)
    {
      WholeLastHolds(m, id, k);
      WholeHoldsOnce(m, id, k);
    }
  }

  lemma {:induction false} ApplyKeepsTiles(m: Meta, op: SplitOp)
    ensures Legal(m, op) && Routed(m) ==> Routed(Apply(m, op))
  {
    if Legal(m, op) && Routed(m) && Halves(op.storeId, op.region, op.req, op.chosen).Some? {
      SplitKeeps(m, op.region, op.req, NewPeers(op.storeId, op.req, op.chosen).value);
    }
  }

  lemma {:induction false} RunKeepsTiles(ms: seq<Meta>, ops: seq<SplitOp>, k: nat)
    requires SplitRun(ms, ops) && k < |ms|
    ensures Routed(ms[k])
  {
    if k == 0 {
      WholeTiles(ms[0]);
    } else {
      RunKeepsTiles(ms, ops, k - 1);
      assert ms[k] == Apply(ms[k - 1], ops[k - 1]);
      ApplyKeepsTiles(ms[k - 1], ops[k - 1]);
    }
  }

  /** Over every run of splits, accepted or refused, at the start of a region or inside
      it, from one region without bounds: every key lies in exactly one region, and
      `FindRegionByKey` returns that region. */
  lemma {:induction false} RegionsTileOverRun(ms: seq<Meta>, ops: seq<SplitOp>, k: nat, key: Bytes)
    requires SplitRun(ms, ops) && k < |ms|
    ensures HeldOnce(ms[k].regions, key) && Routes(ms[k], key)
  {
    RunKeepsTiles(ms, ops, k);
    FindRoutes(ms[k], key);
  }

  /** One region that starts above the key is all there is: the key is not found. */
  lemma {:induction false} NotFoundBelow(m: Meta, id: nat, key: Bytes)
    requires Lists(m) && m.regions.Keys == {id} && Less(key, m.regions[id].startKey)
    ensures FindRegionByKey(m, key) == None && forall j :: !Holds(m.regions, j, key)
  {
    FloorIsLast(m.ranges, key);
    assert forall j :: j in m.regions ==> j in m.regions.Keys;
  }

  function Everything(): Region {
    Region(1, [], [], None, [])
  }

  /** A split whose new id is taken: the one region that held everything is split at [5]
      under its own id, and the key [3] is held by no region and not found any more. */
  lemma {:induction false} TakenIdLosesKeys()
    ensures var r, req := Everything(), SplitRequest([5], 1, [9]);
            var m := Meta(map[1 := r], [([], 1)]);
            var m' := ExecuteSplit(m, 7, r, req, None);
            && Whole(m) && Routes(m, [3]) && Halves(7, r, req, None).Some?
            && FindRegionByKey(m', [3]) == None && forall id :: !Holds(m'.regions, id, [3])
  {
    var r, req := Everything(), SplitRequest([5], 1, [9]);
    var m := Meta(map[1 := r], [([], 1)]);
    WholeTiles(m);
    FindRoutes(m, [3]);
    var lower, upper := Lower(r, req), CreateNewRegion(r, req, NewPeers(7, req, None).value);
    SetRegionLists(m, lower);
    SetRegionLists(SetRegion(m, lower), upper);
    assert Less([3], [5]);
    NotFoundBelow(SetRegion(SetRegion(m, lower), upper), 1, [3]);
  }
}
