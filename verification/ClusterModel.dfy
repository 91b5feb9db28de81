/** The scheduler's picture of the cluster: regions, where their peers and leaders
    are, and the load this puts on every store. */
module ClusterModel {
  import opened Options
  import Regions

  type Peer = Regions.Peer
  type StoreId = nat
  type RegionId = nat

  datatype RegionInfo = RegionInfo(id: RegionId, peers: seq<Peer>, leader: Option<Peer>, pendingPeers: seq<Peer>,
                                   size: nat)

  /** What a store carries. */
  datatype Load = Load(regionCount: nat, regionSize: nat, leaderCount: nat, leaderSize: nat)

  /** `downTime` is the time since the last heartbeat. */
  datatype StoreInfo = StoreInfo(id: StoreId, up: bool, blocked: bool, downTime: nat, load: Load)

  type Table = map<RegionId, RegionInfo>

  const IDLE := Load(0, 0, 0, 0)

  function Plus(a: Load, b: Load): Load {
    Load(a.regionCount + b.regionCount, a.regionSize + b.regionSize, a.leaderCount + b.leaderCount,
         a.leaderSize + b.leaderSize)
  }

  predicate HasPeer(ps: seq<Peer>, s: StoreId) {
    exists i :: 0 <= i < |ps| && ps[i].storeId == s
  }

  function OnePeer(p: Peer, size: nat, s: StoreId): Load {
    if p.storeId == s then Load(1, size, 0, 0) else IDLE
  }

  /** What the peers of one region put on the store: each counts, with its size. */
  function PeerLoad(ps: seq<Peer>, size: nat, s: StoreId): Load {
    if ps == [] then IDLE else Plus(PeerLoad(ps[..|ps| - 1], size, s), OnePeer(ps[|ps| - 1], size, s))
  }

  predicate LedFrom(r: RegionInfo, s: StoreId) {
    r.leader.Some? && r.leader.value.storeId == s
  }

  function LeaderStore(r: RegionInfo): Option<StoreId> {
    match r.leader
    case Some(p) => Some(p.storeId)
    case None => None
  }

  /** The share of one region in the load of a store. */
  function Share(r: RegionInfo, s: StoreId): Load {
    var l := PeerLoad(r.peers, r.size, s);
    if LedFrom(r, s) then l.(leaderCount := 1, leaderSize := r.size) else l
  }

  ghost function Total(w: map<nat, Load>): Load {
    if w == map[] then IDLE
    else
      var k :| k in w;
      Plus(Total(w - {k}), w[k])
  }

  lemma {:induction false} PlusSwaps(a: Load, b: Load, c: Load)
    ensures Plus(Plus(a, b), c) == Plus(Plus(a, c), b)
  {
  }

  lemma {:induction false} PlusIdle(a: Load)
    ensures Plus(a, IDLE) == a && Plus(IDLE, a) == a
  {
  }

  lemma {:induction false} PlusAssociates(a: Load, b: Load, c: Load)
    ensures Plus(Plus(a, b), c) == Plus(a, Plus(b, c))
  {
  }

  lemma {:induction false} TotalPick(w: map<nat, Load>, k: nat)
    requires k in w
    ensures Total(w) == Plus(Total(w - {k}), w[k])
    decreases |w|
  {
    var j :| j in w && Total(w) == Plus(Total(w - {j}), w[j]);
    if j != k {
      var v := w - {j} - {k};
      TotalPick(w - {j}, k);
      assert Total(w - {j}) == Plus(Total(v), w[k]);
      TotalPick(w - {k}, j);
      assert w - {k} - {j} == v;
      assert Total(w - {k}) == Plus(Total(v), w[j]);
      PlusSwaps(Total(v), w[k], w[j]);
    }
  }

  lemma {:induction false} TotalAdd(w: map<nat, Load>, k: nat, l: Load)
    requires k !in w
    ensures Total(w[k := l]) == Plus(Total(w), l)
  {
    TotalPick(w[k := l], k);
    assert w[k := l] - {k} == w;
  }

  ghost function Shares(t: Table, s: StoreId): map<RegionId, Load> {
    map k | k in t :: Share(t[k], s)
  }

  /** The load of a store: the sum of the shares of all regions. */
  ghost function LoadOf(t: Table, s: StoreId): Load {
    Total(Shares(t, s))
  }

  lemma {:induction false} LoadPick(t: Table, s: StoreId, k: RegionId)
    requires k in t
    ensures LoadOf(t, s) == Plus(LoadOf(t - {k}, s), Share(t[k], s))
  {
    TotalPick(Shares(t, s), k);
    assert Shares(t, s) - {k} == Shares(t - {k}, s);
  }

  /** Adding a region adds its share. */
  lemma {:induction false} LoadAdd(t: Table, s: StoreId, r: RegionInfo, k: RegionId)
    requires k !in t
    ensures LoadOf(t[k := r], s) == Plus(LoadOf(t, s), Share(r, s))
  {
    assert Shares(t[k := r], s) == Shares(t, s)[k := Share(r, s)];
    TotalAdd(Shares(t, s), k, Share(r, s));
  }

  /** The regions with a peer on the store, and those led from it. */
  ghost function Hosted(t: Table, s: StoreId): set<RegionId> {
    set k | k in t && HasPeer(t[k].peers, s)
  }

  ghost function Led(t: Table, s: StoreId): set<RegionId> {
    set k | k in t && LedFrom(t[k], s)
  }

  type Links = map<StoreId, set<RegionId>>

  function On(m: Links, s: StoreId): set<RegionId> {
    if s in m then m[s] else {}
  }

  /** The inverse indexes say of every store exactly which regions have a peer there and
      which are led from there. */
  ghost predicate Agrees(t: Table, storeRegions: Links, storeLeaders: Links) {
    forall s {:trigger On(storeRegions, s)} {:trigger On(storeLeaders, s)} ::
      On(storeRegions, s) == Hosted(t, s) && On(storeLeaders, s) == Led(t, s)
  }

  /** Replacing a region changes the inverse indexes at that region only. */
  lemma {:induction false} HostedUpdate(t: Table, r: RegionInfo, s: StoreId)
    ensures Hosted(t[r.id := r], s) == Hosted(t, s) - {r.id} + if HasPeer(r.peers, s) then {r.id} else {}
    ensures Led(t[r.id := r], s) == Led(t, s) - {r.id} + if LedFrom(r, s) then {r.id} else {}
  {
  }
}
