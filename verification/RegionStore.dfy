/** The store's region table and the split command, updating the table in place. */
module RegionStore {
  import opened ByteStrings
  import opened Options
  import opened Regions
  import opened RegionIndex

  class StoreMeta {
    var regions: map<nat, Region>
    var ranges: seq<Range>

    constructor ()
      ensures View() == Meta(map[], [])
    {
      regions, ranges := map[], [];
    }

    function View(): Meta
      reads this
    {
      Meta(regions, ranges)
    }

    method Retain(id: nat)
      modifies this`ranges
      ensures ranges == Without(old(ranges), id)
    {
      var kept := [];
      for i := 0 to |ranges|
        invariant ranges == old(ranges) && kept == Without(ranges[..i], id)
      {
        assert ranges[..i + 1][..i] == ranges[..i];
        if ranges[i].1 != id { kept := kept + [ranges[i]]; }
      }
      assert ranges[..|ranges|] == ranges;
      ranges := kept;
    }

    method SortRanges()
      modifies this`ranges
      ensures ranges == Sort(old(ranges))
    {
      var sorted := [];
      for i := 0 to |ranges|
        invariant ranges == old(ranges) && sorted == Sort(ranges[..i])
      {
        assert ranges[..i + 1][..i] == ranges[..i];
        sorted := InsertRange(sorted, ranges[i]);
      }
      assert ranges[..|ranges|] == ranges;
      ranges := sorted;
    }

    method SetRegion(region: Region)
      modifies this
      ensures View() == Regions.SetRegion(old(View()), region)
      ensures old(Lists(View())) ==> Lists(View())
    {
      if Lists(View()) { SetRegionLists(View(), region); }
      regions := regions[region.id := region];
      Retain(region.id);
      ranges := ranges + [(region.startKey, region.id)];
      SortRanges();
    }

    method RemoveRegion(id: nat)
      modifies this
      ensures View() == Regions.RemoveRegion(old(View()), id)
      ensures old(Lists(View())) ==> Lists(View())
    {
      if Lists(View()) { RemoveRegionLists(View(), id); }
      regions := regions - {id};
      Retain(id);
    }

    /** Searches the index from its end for the first pair that does not start after the
        key, then checks the region it names. */
    method FindRegionByKey(key: Bytes) returns (r: Option<Region>)
      ensures r == Regions.FindRegionByKey(View(), key)
      ensures Routed(View()) ==>
                r.Some? && r.value.id in regions && regions[r.value.id] == r.value && forall id ::
                  Holds(regions, id, key) <==> id == r.value.id
    {
      if Routed(View()) { FindRoutes(View(), key); }
      var i := |ranges|;
      assert ranges[..i] == ranges;
      while i > 0 && !AtMost(ranges[i - 1].0, key)
        invariant 0 <= i <= |ranges| && Floor(ranges, key) == Floor(ranges[..i], key)
      {
        assert ranges[..i][..i - 1] == ranges[..i - 1];
        i := i - 1;
      }
      if i == 0 { return None; }
      var id := ranges[i - 1].1;
      assert Floor(ranges, key) == Some(ranges[i - 1]);
      if id in regions && KeyInRegion(key, regions[id]) { return Some(regions[id]); }
      r := None;
    }
  }

  method InsertRange(s: seq<Range>, e: Range) returns (r: seq<Range>)
    ensures r == Insert(s, e)
  {
    var i := |s|;
    var after := [];
    assert s[..i] == s && Insert(s, e) + [] == Insert(s, e);
    while i > 0 && !AtMost(s[i - 1].0, e.0)
      invariant 0 <= i <= |s| && Insert(s, e) == Insert(s[..i], e) + after
    {
      assert s[..i][..i - 1] == s[..i - 1];
      assert Insert(s[..i], e) + after == Insert(s[..i - 1], e) + ([s[i - 1]] + after);
      after := [s[i - 1]] + after;
      i := i - 1;
    }
    r := s[..i] + [e] + after;
  }

  class AdminHandler {
    const storeMeta: StoreMeta
    const storeId: nat

    constructor (storeMeta: StoreMeta, storeId: nat)
      ensures this.storeMeta == storeMeta && this.storeId == storeId
    {
      this.storeMeta, this.storeId := storeMeta, storeId;
    }

    method Store(updated: Region, newRegion: Region)
      modifies storeMeta
      ensures storeMeta.View() == SetRegion(SetRegion(old(storeMeta.View()), updated), newRegion)
    {
      storeMeta.SetRegion(updated);
      storeMeta.SetRegion(newRegion);
    }

    /** Splits a region in two, or refuses and changes nothing. */
    method ExecuteSplit(region: Region, req: SplitRequest, chosen: Option<seq<Peer>>)
      returns (r: Option<(Region, Region)>)
      modifies storeMeta
      ensures r == Halves(storeId, region, req, chosen)
      ensures storeMeta.View() == Regions.ExecuteSplit(old(storeMeta.View()), storeId, region, req, chosen)
      ensures r.None? ==> storeMeta.View() == old(storeMeta.View())
      ensures Legal(old(storeMeta.View()), SplitOp(storeId, region, req, chosen)) && old(Routed(storeMeta.View())) ==>
                Routed(storeMeta.View())
    {
      ApplyKeepsTiles(storeMeta.View(), SplitOp(storeId, region, req, chosen));
      if req.splitKey == [] { return None; }
      if !KeyInRegion(req.splitKey, region) { return None; }
      var peers := NewPeers(storeId, req, chosen);
      if peers.None? { return None; }
      var newRegion := CreateNewRegion(region, req, peers.value);
      var updated := UpdateRegionRange(region, req.splitKey);
      Store(updated, newRegion);
      r := Some((updated, newRegion));
    }
  }
}
