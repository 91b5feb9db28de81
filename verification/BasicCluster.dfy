/** The cluster object: region table, inverse indexes and store statistics, updated in
    place by every region report. */
module BasicCluster {
  import opened Options
  import opened ClusterModel

  type Stores = map<StoreId, StoreInfo>

  /** The same stores, with loads that may differ. */
  predicate SameStores(a: Stores, b: Stores) {
    a.Keys == b.Keys && forall s :: s in a ==> b[s] == a[s].(load := b[s].load)
  }

  /** Every known store carries the sum of the shares of the regions in the table. */
  ghost predicate Loaded(stores: Stores, t: Table) {
    forall s :: s in stores ==> stores[s].load == LoadOf(t, s)
  }

  // ---- The steps of a region report ----

  method Unlink(m: Links, ps: seq<Peer>, id: RegionId) returns (r: Links)
    ensures forall s {:trigger On(r, s)} :: On(r, s) == if HasPeer(ps, s) then On(m, s) - {id} else On(m, s)
  {
    r := m;
    for i := 0 to |ps|
      invariant forall s {:trigger On(r, s)} :: On(r, s) == if HasPeer(ps[..i], s) then On(m, s) - {id} else On(m, s)
    {
      HasPeerGrows(ps, i);
      ghost var before := r;
      if ps[i].storeId in r { r := r[ps[i].storeId := r[ps[i].storeId] - {id}]; }
      assert forall s {:trigger On(r, s)} ::
               On(r, s) == if s == ps[i].storeId then On(before, s) - {id} else On(before, s);
    }
    assert ps[..|ps|] == ps;
  }

  method Link(m: Links, ps: seq<Peer>, id: RegionId) returns (r: Links)
    ensures forall s {:trigger On(r, s)} :: On(r, s) == if HasPeer(ps, s) then On(m, s) + {id} else On(m, s)
  {
    r := m;
    for i := 0 to |ps|
      invariant forall s {:trigger On(r, s)} :: On(r, s) == if HasPeer(ps[..i], s) then On(m, s) + {id} else On(m, s)
    {
      HasPeerGrows(ps, i);
      ghost var before := r;
      r := r[ps[i].storeId := On(r, ps[i].storeId) + {id}];
      assert forall s {:trigger On(r, s)} ::
               On(r, s) == if s == ps[i].storeId then On(before, s) + {id} else On(before, s);
    }
    assert ps[..|ps|] == ps;
  }

  lemma {:induction false} HasPeerGrows(ps: seq<Peer>, i: nat)
    requires i < |ps|
    ensures forall s :: HasPeer(ps[..i + 1], s) <==> HasPeer(ps[..i], s) || s == ps[i].storeId
  {
    forall s ensures HasPeer(ps[..i + 1], s) <==> HasPeer(ps[..i], s) || s == ps[i].storeId {
      if HasPeer(ps[..i], s) {
        var j :| 0 <= j < i && ps[..i][j].storeId == s;
        assert ps[..i + 1][j].storeId == s;
      }
      assert ps[..i + 1][i] == ps[i];
      if HasPeer(ps[..i + 1], s) && s != ps[i].storeId {
        var j :| 0 <= j < i + 1 && ps[..i + 1][j].storeId == s;
        assert ps[..i][j].storeId == s;
      }
    }
  }

  method ResetLoads(stores: Stores) returns (r: Stores)
    ensures SameStores(stores, r) && forall s :: s in r ==> r[s].load == IDLE
  {
    r := stores;
    var rest := stores.Keys;
    while rest != {}
      invariant rest <= stores.Keys && SameStores(stores, r)
      invariant forall s :: s in r && s !in rest ==> r[s].load == IDLE
    {
      var s :| s in rest;
      r := r[s := r[s].(load := IDLE)];
      rest := rest - {s};
    }
  }

  method CountPeer(stores: Stores, p: Peer, size: nat) returns (r: Stores)
    ensures SameStores(stores, r)
    ensures forall s :: s in r ==> r[s].load == Plus(stores[s].load, OnePeer(p, size, s))
  {
    r := stores;
    if p.storeId in r {
      var l := r[p.storeId].load;
      r := r[p.storeId := r[p.storeId].(load := l.(regionCount := l.regionCount + 1,
                                                   regionSize := l.regionSize + size))];
    }
  }

  /** Adds the peers of a region to the loads of the stores they are on. */
  method CountPeers(stores: Stores, ps: seq<Peer>, size: nat) returns (r: Stores)
    ensures SameStores(stores, r)
    ensures forall s :: s in r ==> r[s].load == Plus(stores[s].load, PeerLoad(ps, size, s))
  {
    r := stores;
    for i := 0 to |ps|
      invariant SameStores(stores, r)
      invariant forall s :: s in r ==> r[s].load == Plus(stores[s].load, PeerLoad(ps[..i], size, s))
    {
      forall s | s in stores
        ensures Plus(Plus(stores[s].load, PeerLoad(ps[..i], size, s)), OnePeer(ps[i], size, s)) ==
                Plus(stores[s].load, PeerLoad(ps[..i + 1], size, s))
      {
        assert ps[..i + 1][..i] == ps[..i];
        PlusAssociates(stores[s].load, PeerLoad(ps[..i], size, s), OnePeer(ps[i], size, s));
      }
      r := CountPeer(r, ps[i], size);
    }
    assert ps[..|ps|] == ps;
  }

  /** Adds the share of one region to every store. */
  method CountRegion(stores: Stores, region: RegionInfo) returns (r: Stores)
    ensures SameStores(stores, r)
    ensures forall s :: s in r ==> r[s].load == Plus(stores[s].load, Share(region, s))
  {
    r := CountPeers(stores, region.peers, region.size);
    PeersDoNotLead(region.peers, region.size);
    if region.leader.Some? && region.leader.value.storeId in r {
      var s := region.leader.value.storeId;
      var l := r[s].load;
      r := r[s := r[s].(load := l.(leaderCount := l.leaderCount + 1, leaderSize := l.leaderSize + region.size))];
    }
  }

  lemma {:induction false} PeersDoNotLead(ps: seq<Peer>, size: nat)
    ensures forall s :: PeerLoad(ps, size, s).leaderCount == 0 && PeerLoad(ps, size, s).leaderSize == 0
    decreases |ps|
  {
    if ps != [] { PeersDoNotLead(ps[..|ps| - 1], size); }
  }

  /** Recomputes all loads from the region table, in any order. */
  method ComputeLoads(stores: Stores, t: Table) returns (r: Stores)
    ensures SameStores(stores, r) && Loaded(r, t)
  {
    r := ResetLoads(stores);
    var rest := t.Keys;
    ghost var done: Table := map[];
    assert forall s :: Shares(done, s) == map[];
    while rest != {}
      invariant rest <= t.Keys && done == t - rest
      invariant SameStores(stores, r) && Loaded(r, done)
    {
      var k :| k in rest;
      r := CountRegion(r, t[k]);
      forall s | s in r ensures LoadOf(done[k := t[k]], s) == Plus(LoadOf(done, s), Share(t[k], s)) {
        LoadAdd(done, s, t[k], k);
      }
      rest, done := rest - {k}, done[k := t[k]];
      assert done == t - rest;
    }
    assert done == t;
  }

  class BasicCluster {
    var stores: Stores
    var regions: Table
    var storeRegions: Links
    var storeLeaders: Links

    /** Regions and stores are known by their ids, and the inverse indexes agree with the
        region table. */
    ghost predicate Valid()
      reads this
    {
      && (forall k :: k in regions ==> regions[k].id == k) && (forall s :: s in stores ==> stores[s].id == s)
      && Agrees(regions, storeRegions, storeLeaders)
    }

    constructor ()
      ensures Valid() && stores == map[] && regions == map[]
    {
      stores, regions, storeRegions, storeLeaders := map[], map[], map[], map[];
    }

    method PutStore(store: StoreInfo)
      requires Valid()
      modifies this`stores
      ensures Valid() && stores == old(stores)[store.id := store]
    {
      stores := stores[store.id := store];
    }

    /** Takes the region out of the indexes of the stores it was on. */
    method Forget(prev: RegionInfo)
      modifies this`storeRegions, this`storeLeaders
      ensures forall s {:trigger On(storeRegions, s)} ::
                On(storeRegions, s) == if HasPeer(prev.peers, s) then On(old(storeRegions), s) - {prev.id}
                  else On(old(storeRegions), s)
      ensures forall s {:trigger On(storeLeaders, s)} ::
                On(storeLeaders, s) == if LedFrom(prev, s) then On(old(storeLeaders), s) - {prev.id}
                  else On(old(storeLeaders), s)
    {
      storeRegions := Unlink(storeRegions, prev.peers, prev.id);
      if prev.leader.Some? && prev.leader.value.storeId in storeLeaders {
        var s := prev.leader.value.storeId;
        storeLeaders := storeLeaders[s := storeLeaders[s] - {prev.id}];
      }
    }

    method Enter(region: RegionInfo)
      modifies this`regions, this`storeRegions, this`storeLeaders
      ensures regions == old(regions)[region.id := region]
      ensures forall s {:trigger On(storeRegions, s)} ::
                On(storeRegions, s) == if HasPeer(region.peers, s) then On(old(storeRegions), s) + {region.id}
                  else On(old(storeRegions), s)
      ensures forall s {:trigger On(storeLeaders, s)} ::
                On(storeLeaders, s) == if LedFrom(region, s) then On(old(storeLeaders), s) + {region.id}
                  else On(old(storeLeaders), s)
    {
      regions := regions[region.id := region];
      storeRegions := Link(storeRegions, region.peers, region.id);
      if region.leader.Some? {
        var s := region.leader.value.storeId;
        storeLeaders := storeLeaders[s := On(storeLeaders, s) + {region.id}];
      }
    }

    /** Adds or replaces a region: the table changes at its id only, the indexes agree
        again, and right afterwards every store's counts and sizes are the sums over the
        table. */
    method PutRegion(region: RegionInfo)
      requires Valid()
      modifies this
      ensures Valid() && regions == old(regions)[region.id := region]
      ensures SameStores(old(stores), stores) && Loaded(stores, regions)
    {
      ghost var t, here, lead := regions, storeRegions, storeLeaders;
      if region.id in regions { Forget(regions[region.id]); }
      ghost var here', lead' := storeRegions, storeLeaders;
      forall s ensures On(here', s) == Hosted(t, s) - {region.id} && On(lead', s) == Led(t, s) - {region.id} {
        assert On(here, s) == Hosted(t, s) && On(lead, s) == Led(t, s);
      }
      Enter(region);
      forall s ensures On(storeRegions, s) == Hosted(regions, s) && On(storeLeaders, s) == Led(regions, s) {
        HostedUpdate(t, region, s);
        assert On(here', s) == Hosted(t, s) - {region.id} && On(lead', s) == Led(t, s) - {region.id};
      }
      stores := ComputeLoads(stores, regions);
    }

    // ---- Picking a region at random ----

    /** Some region with a peer on the store that has pending peers, if there is one. */
    method RandPendingRegion(s: StoreId) returns (r: Option<RegionInfo>)
      requires Valid()
      ensures r.Some? ==>
                r.value.id in Hosted(regions, s) && regions[r.value.id] == r.value && r.value.pendingPeers != []
      ensures r.None? ==> forall k :: k in Hosted(regions, s) ==> regions[k].pendingPeers == []
    {
      assert On(storeRegions, s) == Hosted(regions, s);
      var candidates := set k | k in On(storeRegions, s) && k in regions && regions[k].pendingPeers != [];
      r := Pick(candidates);
      if r.None? { assert forall k :: k in Hosted(regions, s) && regions[k].pendingPeers != [] ==> k in candidates; }
    }

    /** Some healthy region with a peer on the store that is not led from it. */
    method RandFollowerRegion(s: StoreId) returns (r: Option<RegionInfo>)
      requires Valid()
      ensures r.Some? ==>
                && r.value.id in Hosted(regions, s) && regions[r.value.id] == r.value
                && r.value.pendingPeers == [] && !LedFrom(r.value, s)
      ensures r.None? ==> forall k :: k in Hosted(regions, s) && regions[k].pendingPeers == [] ==>
                LedFrom(regions[k], s)
    {
      assert On(storeRegions, s) == Hosted(regions, s);
      var candidates := set k |
        k in On(storeRegions, s) && k in regions && LeaderStore(regions[k]) != Some(s) && regions[k].pendingPeers == [];
      r := Pick(candidates);
      if r.None? {
        assert forall k :: k in Hosted(regions, s) && regions[k].pendingPeers == [] ==>
                             LedFrom(regions[k], s) || k in candidates;
      }
    }

    /** Some healthy region led from the store. */
    method RandLeaderRegion(s: StoreId) returns (r: Option<RegionInfo>)
      requires Valid()
      ensures r.Some? ==> r.value.id in Led(regions, s) && regions[r.value.id] == r.value && r.value.pendingPeers == []
      ensures r.None? ==> forall k :: k in Led(regions, s) ==> regions[k].pendingPeers != []
    {
      assert On(storeLeaders, s) == Led(regions, s);
      var candidates := set k | k in On(storeLeaders, s) && k in regions && regions[k].pendingPeers == [];
      r := Pick(candidates);
      if r.None? { assert forall k :: k in Led(regions, s) && regions[k].pendingPeers == [] ==> k in candidates; }
    }

    method Pick(candidates: set<RegionId>) returns (r: Option<RegionInfo>)
      requires candidates <= regions.Keys
      ensures r.None? <==> candidates == {}
      ensures r.Some? ==> exists k :: k in candidates && r.value == regions[k]
    {
      if candidates == {} { return None; }
      var k :| k in candidates;
      r := Some(regions[k]);
    }
  }
}
