/** Regions of the key space, the sorted index that routes keys to them, and what a
    split does to both. */
module Regions {
  import opened ByteStrings
  import opened Options

  datatype Epoch = Epoch(confVer: nat, version: nat)

  datatype Peer = Peer(id: nat, storeId: nat)

  /** An empty end key means no upper bound. */
  datatype Region = Region(id: nat, startKey: Bytes, endKey: Bytes, epoch: Option<Epoch>, peers: seq<Peer>)

  type Range = (Bytes, nat)

  /** The regions by id, and (start key, id) pairs in the order of start keys. */
  datatype Meta = Meta(regions: map<nat, Region>, ranges: seq<Range>)

  predicate KeyInRegion(key: Bytes, r: Region) {
    !(r.startKey != [] && Less(key, r.startKey)) && !(r.endKey != [] && !Less(key, r.endKey))
  }

  // ---- The index ----

  function Without(s: seq<Range>, id: nat): seq<Range> {
    if s == [] then []
    else Without(s[..|s| - 1], id) + if s[|s| - 1].1 != id then [s[|s| - 1]] else []
  }

  /** Places `e` behind everything that does not start after it. */
  function Insert(s: seq<Range>, e: Range): seq<Range> {
    if s == [] || AtMost(s[|s| - 1].0, e.0) then s + [e] else Insert(s[..|s| - 1], e) + [s[|s| - 1]]
  }

  /** The stable sort by start key. */
  function Sort(s: seq<Range>): seq<Range> {
    if s == [] then [] else Insert(Sort(s[..|s| - 1]), s[|s| - 1])
  }

  function SetRegion(m: Meta, r: Region): Meta {
    Meta(m.regions[r.id := r], Sort(Without(m.ranges, r.id) + [(r.startKey, r.id)]))
  }

  function RemoveRegion(m: Meta, id: nat): Meta {
    Meta(m.regions - {id}, Without(m.ranges, id))
  }

  /** The last pair that does not start after `key`. */
  function Floor(s: seq<Range>, key: Bytes): Option<Range> {
    if s == [] then None
    else if AtMost(s[|s| - 1].0, key) then Some(s[|s| - 1])
    else Floor(s[..|s| - 1], key)
  }

  function FindRegionByKey(m: Meta, key: Bytes): Option<Region> {
    match Floor(m.ranges, key)
    case None => None
    case Some(e) => if e.1 in m.regions && KeyInRegion(key, m.regions[e.1]) then Some(m.regions[e.1]) else None
  }

  // ---- Splitting ----

  datatype SplitRequest = SplitRequest(splitKey: Bytes, newRegionId: nat, newPeerIds: seq<nat>)

  function EpochOf(r: Region): Epoch {
    match r.epoch
    case Some(e) => e
    case None => Epoch(0, 0)
  }

  function UpdateRegionRange(r: Region, splitKey: Bytes): Region {
    r.(endKey := splitKey, epoch := Some(EpochOf(r).(version := EpochOf(r).version + 1)))
  }

  /** Peers named in the request all go to this store; otherwise the allocator chooses
      them, and may fail. */
  function NewPeers(storeId: nat, req: SplitRequest, chosen: Option<seq<Peer>>): Option<seq<Peer>> {
    if req.newPeerIds != [] then
      Some(seq(|req.newPeerIds|, i requires 0 <= i < |req.newPeerIds| => Peer(req.newPeerIds[i], storeId)))
    else chosen
  }

  function CreateNewRegion(r: Region, req: SplitRequest, peers: seq<Peer>): Region {
    Region(req.newRegionId, req.splitKey, r.endKey,
           Some(Epoch(EpochOf(r).confVer + 1, EpochOf(r).version + 1)), peers)
  }

  /** The two halves, or `None` when the split is refused. */
  function Halves(storeId: nat, r: Region, req: SplitRequest, chosen: Option<seq<Peer>>): Option<(Region, Region)> {
    if req.splitKey == [] || !KeyInRegion(req.splitKey, r) then None
    else
      match NewPeers(storeId, req, chosen)
      case None => None
      case Some(peers) => Some((UpdateRegionRange(r, req.splitKey), CreateNewRegion(r, req, peers)))
  }

  /** A split is refused exactly for an empty key, a key outside the region, or when no
      peers can be found; otherwise the halves meet at the split key, both with the
      version plus one, and the upper one with the configuration version plus one and with
      the peers named in the request, all on this store, or the chosen ones. */
  lemma {:induction false} HalvesMeaning(storeId: nat, r: Region, req: SplitRequest, chosen: Option<seq<Peer>>)
    ensures Halves(storeId, r, req, chosen).None? <==>
            req.splitKey == [] || !KeyInRegion(req.splitKey, r) || (req.newPeerIds == [] && chosen.None?)
    ensures Halves(storeId, r, req, chosen).Some? ==>
              var (lower, upper) := Halves(storeId, r, req, chosen).value;
              && lower.id == r.id && upper.id == req.newRegionId && lower.peers == r.peers
              && lower.startKey == r.startKey && lower.endKey == upper.startKey == req.splitKey
              && upper.endKey == r.endKey && (req.newPeerIds == [] ==> Some(upper.peers) == chosen)
              && (req.newPeerIds != [] ==> |upper.peers| == |req.newPeerIds|)
              && (req.newPeerIds != [] ==> forall i :: 0 <= i < |req.newPeerIds| ==>
                    upper.peers[i] == Peer(req.newPeerIds[i], storeId))
              && EpochOf(lower).version == EpochOf(upper).version == EpochOf(r).version + 1
              && EpochOf(lower).confVer == EpochOf(r).confVer && EpochOf(upper).confVer == EpochOf(r).confVer + 1
  {
  }

  function ExecuteSplit(m: Meta, storeId: nat, r: Region, req: SplitRequest, chosen: Option<seq<Peer>>): Meta {
    match Halves(storeId, r, req, chosen)
    case None => m
    case Some((updated, new')) => SetRegion(SetRegion(m, updated), new')
  }

  // ---- Tiling ----

  /** The region `id` holds `key`. */
  predicate Holds(rs: map<nat, Region>, id: nat, key: Bytes) {
    id in rs && KeyInRegion(key, rs[id])
  }

  /** Exactly one region holds `key`. */
  ghost predicate HeldOnce(rs: map<nat, Region>, key: Bytes) {
    exists id :: Holds(rs, id, key) && forall j :: Holds(rs, j, key) ==> j == id
  }

  ghost predicate Tiles(rs: map<nat, Region>) {
    forall key {:trigger HeldOnce(rs, key)} :: HeldOnce(rs, key)
  }

  ghost predicate Empty(r: Region) {
    forall key {:trigger KeyInRegion(key, r)} :: !KeyInRegion(key, r)
  }

  /** `r` is stored and may be split at the key. */
  predicate Splittable(rs: map<nat, Region>, r: Region, key: Bytes) {
    r.id in rs && rs[r.id] == r && key != [] && KeyInRegion(key, r)
  }

  function Lower(r: Region, req: SplitRequest): Region {
    UpdateRegionRange(r, req.splitKey)
  }

  /** The regions after a split that is not refused. */
  function Split(rs: map<nat, Region>, r: Region, req: SplitRequest, peers: seq<Peer>): map<nat, Region> {
    rs[r.id := Lower(r, req)][req.newRegionId := CreateNewRegion(r, req, peers)]
  }

  /** A key lies in the region if and only if it lies in one of the halves, and never
      in both. */
  lemma {:induction false} HalvesPartition(r: Region, req: SplitRequest, peers: seq<Peer>, key: Bytes)
    requires req.splitKey != [] && KeyInRegion(req.splitKey, r)
    ensures var lower, upper := Lower(r, req), CreateNewRegion(r, req, peers);
            && (KeyInRegion(key, r) <==> KeyInRegion(key, lower) || KeyInRegion(key, upper))
            && !(KeyInRegion(key, lower) && KeyInRegion(key, upper))
  {
    var s := req.splitKey;
    LessTotal(key, s);
    if Less(key, s) {
      if r.endKey != [] { LessTransitive(key, s, r.endKey); }
    } else if Less(s, key) {
      LessAsymmetric(s, key);
      if Less(key, r.startKey) { LessTransitive(s, key, r.startKey); }
    }
  }

  /** The region that the upper half takes the place of, if any, holds no key. */
  ghost predicate OverwritesNothing(rs: map<nat, Region>, r: Region, req: SplitRequest) {
    if req.newRegionId == r.id then Empty(Lower(r, req)) else req.newRegionId in rs ==> Empty(rs[req.newRegionId])
  }

  lemma {:induction false} KeyHeldOnce(rs: map<nat, Region>, r: Region, req: SplitRequest, peers: seq<Peer>, key: Bytes)
    requires Splittable(rs, r, req.splitKey) && HeldOnce(rs, key) && OverwritesNothing(rs, r, req)
    ensures HeldOnce(Split(rs, r, req, peers), key)
  {
    var rs' := Split(rs, r, req, peers);
    var h :| Holds(rs, h, key) && forall j :: Holds(rs, j, key) ==> j == h;
    HalvesPartition(r, req, peers, key);
    var id := if h == r.id && KeyInRegion(key, CreateNewRegion(r, req, peers)) then req.newRegionId else h;
    assert Holds(rs', id, key);
    forall j | Holds(rs', j, key) ensures j == id {
      assert j != r.id && j != req.newRegionId ==> Holds(rs, j, key);
      assert Holds(rs, r.id, key) <==> KeyInRegion(key, r);
    }
  }

  lemma {:induction false} OverwrittenKeyLost(rs: map<nat, Region>, r: Region, req: SplitRequest, peers: seq<Peer>,
                                              key: Bytes)
    requires Splittable(rs, r, req.splitKey) && HeldOnce(rs, key)
    requires if req.newRegionId == r.id then KeyInRegion(key, Lower(r, req)) else Holds(rs, req.newRegionId, key)
    ensures !HeldOnce(Split(rs, r, req, peers), key)
  {
    HalvesPartition(r, req, peers, key);
    assert Holds(rs, req.newRegionId, key);
    assert Holds(rs, r.id, key) <==> KeyInRegion(key, r);
    forall j ensures !Holds(Split(rs, r, req, peers), j, key) {
      assert j != r.id && j != req.newRegionId && Holds(Split(rs, r, req, peers), j, key) ==> Holds(rs, j, key);
    }
  }

  /** A split of a stored region keeps every key in exactly one region if and only if
      the id it gives to the upper half overwrites no region that holds a key. */
  lemma {:induction false} SplitTilesIff(rs: map<nat, Region>, r: Region, req: SplitRequest, peers: seq<Peer>)
    requires Tiles(rs) && Splittable(rs, r, req.splitKey)
    ensures Tiles(Split(rs, r, req, peers)) <==> OverwritesNothing(rs, r, req)
  {
    var rs' := Split(rs, r, req, peers);
    if OverwritesNothing(rs, r, req) {
      forall key: Bytes ensures HeldOnce(rs', key) {
        assert HeldOnce(rs, key);
        KeyHeldOnce(rs, r, req, peers, key);
      }
    } else {
      var lost := if req.newRegionId == r.id then Lower(r, req) else rs[req.newRegionId];
      var key :| KeyInRegion(key, lost);
      assert HeldOnce(rs, key);
      OverwrittenKeyLost(rs, r, req, peers, key);
    }
  }
}
