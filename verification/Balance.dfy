/** Operators that move peers and leaders, and the measure they lower. */
module Balance {
  import opened Options
  import opened ClusterModel
  import Regions

  // ---- Operators ----

  datatype OpStep =
    | AddPeer(toStore: StoreId, peerId: nat)
    | TransferLeader(fromStore: StoreId, toStore: StoreId)
    | RemovePeer(fromStore: StoreId)

  datatype OpKind = RegionOp | LeaderOp

  datatype Operator = Operator(regionId: RegionId, kind: OpKind, steps: seq<OpStep>)

  function MovePeerOperator(r: RegionInfo, from: StoreId, to: StoreId, newPeerId: nat): Operator {
    Operator(r.id, RegionOp,
             [AddPeer(to, newPeerId)] + (if LeaderStore(r) == Some(from) then [TransferLeader(from, to)] else [])
               + [RemovePeer(from)])
  }

  function TransferLeaderOperator(r: RegionInfo, from: StoreId, to: StoreId): Operator {
    Operator(r.id, LeaderOp, [TransferLeader(from, to)])
  }

  predicate IsFinish(step: OpStep, r: RegionInfo) {
    match step
    case AddPeer(to, id) =>
      Regions.Peer(id, to) in r.peers && forall i :: 0 <= i < |r.pendingPeers| ==> r.pendingPeers[i].id != id
    case TransferLeader(_, to) => LeaderStore(r) == Some(to)
    case RemovePeer(from) => !HasPeer(r.peers, from)
  }

  /** The first peer on the store. */
  function PeerOnStore(ps: seq<Peer>, s: StoreId): Option<Peer> {
    if ps == [] then None else if ps[0].storeId == s then Some(ps[0]) else PeerOnStore(ps[1..], s)
  }

  function WithoutStore(ps: seq<Peer>, s: StoreId): seq<Peer> {
    if ps == [] then [] else WithoutStore(ps[..|ps| - 1], s) + if ps[|ps| - 1].storeId == s then [] else [ps[|ps| - 1]]
  }

  /** The region once the step has been carried out. */
  function Carry(step: OpStep, r: RegionInfo): RegionInfo {
    match step
    case AddPeer(to, id) => r.(peers := r.peers + [Regions.Peer(id, to)])
    case TransferLeader(_, to) => r.(leader := PeerOnStore(r.peers, to))
    case RemovePeer(from) => r.(peers := WithoutStore(r.peers, from))
  }

  function CarryAll(steps: seq<OpStep>, r: RegionInfo): RegionInfo
    decreases |steps|
  {
    if steps == [] then r else CarryAll(steps[1..], Carry(steps[0], r))
  }

  // ---- One peer per store ----

  predicate OnePerStore(ps: seq<Peer>) {
    forall i, j :: 0 <= i < j < |ps| ==> ps[i].storeId != ps[j].storeId
  }

  /** One peer per store, the leader among the peers, and a size that is not zero. */
  predicate WellPlaced(r: RegionInfo) {
    OnePerStore(r.peers) && r.size > 0 && (r.leader.Some? ==> r.leader.value in r.peers)
  }

  lemma {:induction false} LastIsNew(ps: seq<Peer>, p: Peer)
    requires OnePerStore(ps + [p])
    ensures OnePerStore(ps) && !HasPeer(ps, p.storeId)
  {
    var all := ps + [p];
    assert forall i :: 0 <= i < |ps| ==> all[i] == ps[i];
    assert all[|ps|] == p;
  }

  lemma {:induction false} PeerLoadLast(ps: seq<Peer>, p: Peer, size: nat, s: StoreId)
    ensures PeerLoad(ps + [p], size, s) == Plus(PeerLoad(ps, size, s), OnePeer(p, size, s))
  {
    assert (ps + [p])[..|ps|] == ps;
  }

  lemma {:induction false} SingleStep(front: seq<Peer>, last: Peer, size: nat, s: StoreId)
    requires PeerLoad(front, size, s) == (if HasPeer(front, s) then Load(1, size, 0, 0) else IDLE)
    requires !HasPeer(front, last.storeId)
    ensures PeerLoad(front + [last], size, s) == if HasPeer(front + [last], s) then Load(1, size, 0, 0) else IDLE
  {
    HasPeerLast(front, last, s);
    PeerLoadLast(front, last, size, s);
    PlusIdle(PeerLoad(front, size, s));
    PlusIdle(OnePeer(last, size, s));
  }

  lemma {:induction false} SinglePeerLoad(ps: seq<Peer>, size: nat, s: StoreId)
    requires OnePerStore(ps)
    ensures PeerLoad(ps, size, s) == if HasPeer(ps, s) then Load(1, size, 0, 0) else IDLE
    decreases |ps|
  {
    if ps != [] {
      var front, last := ps[..|ps| - 1], ps[|ps| - 1];
      assert ps == front + [last];
      LastIsNew(front, last);
      SinglePeerLoad(front, size, s);
      SingleStep(front, last, size, s);
    }
  }

  lemma {:induction false} HasPeerLast(ps: seq<Peer>, p: Peer, s: StoreId)
    ensures HasPeer(ps + [p], s) <==> HasPeer(ps, s) || p.storeId == s
  {
    if HasPeer(ps, s) {
      var i :| 0 <= i < |ps| && ps[i].storeId == s;
      assert (ps + [p])[i].storeId == s;
    }
    assert (ps + [p])[|ps|] == p;
  }

  lemma {:induction false} WithoutStoreStores(ps: seq<Peer>, s: StoreId, x: StoreId)
    ensures HasPeer(WithoutStore(ps, s), x) <==> HasPeer(ps, x) && x != s
    decreases |ps|
  {
    if ps != [] {
      var front, last := ps[..|ps| - 1], ps[|ps| - 1];
      WithoutStoreStores(front, s, x);
      assert ps == front + [last];
      HasPeerLast(front, last, x);
      HasPeerLast(WithoutStore(front, s), last, x);
      assert WithoutStore(front, s) + [] == WithoutStore(front, s);
    }
  }

  lemma {:induction false} WithoutStoreKeeps(ps: seq<Peer>, s: StoreId, p: Peer)
    ensures p in WithoutStore(ps, s) <==> p in ps && p.storeId != s
    decreases |ps|
  {
    if ps != [] {
      WithoutStoreKeeps(ps[..|ps| - 1], s, p);
      assert ps == ps[..|ps| - 1] + [ps[|ps| - 1]];
    }
  }

  lemma {:induction false} OnePerStoreLast(ps: seq<Peer>, p: Peer)
    requires OnePerStore(ps) && !HasPeer(ps, p.storeId)
    ensures OnePerStore(ps + [p])
  {
  }

  /** Removing the store of one peer removes that peer and no other. */
  lemma {:induction false} WithoutStoreSize(ps: seq<Peer>, s: StoreId)
    requires OnePerStore(ps)
    ensures OnePerStore(WithoutStore(ps, s))
    ensures |WithoutStore(ps, s)| == |ps| - if HasPeer(ps, s) then 1 else 0
    decreases |ps|
  {
    if ps != [] {
      var front, last := ps[..|ps| - 1], ps[|ps| - 1];
      assert ps == front + [last];
      LastIsNew(front, last);
      WithoutStoreSize(front, s);
      HasPeerLast(front, last, s);
      WithoutStoreStores(front, s, last.storeId);
      if last.storeId != s { OnePerStoreLast(WithoutStore(front, s), last); }
    }
  }

  lemma {:induction false} PeerOnStoreFound(ps: seq<Peer>, s: StoreId)
    requires HasPeer(ps, s)
    ensures PeerOnStore(ps, s).Some? && PeerOnStore(ps, s).value in ps && PeerOnStore(ps, s).value.storeId == s
  {
    if ps[0].storeId != s {
      var i :| 0 <= i < |ps| && ps[i].storeId == s;
      assert ps[1..][i - 1].storeId == s;
      PeerOnStoreFound(ps[1..], s);
    }
  }

  // ---- What the operators do to a region ----

  /** The region after its peer has moved. */
  function Moved(r: RegionInfo, from: StoreId, to: StoreId, newPeerId: nat): RegionInfo {
    CarryAll(MovePeerOperator(r, from, to, newPeerId).steps, r)
  }

  /** The steps of a move one after the other. */
  lemma {:induction false} MovedByParts(r: RegionInfo, from: StoreId, to: StoreId, newPeerId: nat)
    ensures var added := r.(peers := r.peers + [Regions.Peer(newPeerId, to)]);
            var led := if LeaderStore(r) == Some(from) then added.(leader := PeerOnStore(added.peers, to)) else added;
            Moved(r, from, to, newPeerId) == led.(peers := WithoutStore(led.peers, from))
  {
    var steps := MovePeerOperator(r, from, to, newPeerId).steps;
    var added := Carry(AddPeer(to, newPeerId), r);
    var remove := [RemovePeer(from)];
    assert remove[1..] == [];
    if LeaderStore(r) == Some(from) {
      var rest := [TransferLeader(from, to)] + remove;
      assert steps[1..] == rest && rest[1..] == remove;
      assert CarryAll(steps, r) == CarryAll(rest, added) == CarryAll(remove, Carry(TransferLeader(from, to), added));
    } else {
      assert steps[1..] == remove;
      assert CarryAll(steps, r) == CarryAll(remove, added);
    }
  }

  /** The peers of a region after one has joined on `p.storeId` and the one on `from` is
      gone. */
  lemma {:induction false} SwapPeers(ps: seq<Peer>, from: StoreId, p: Peer)
    requires OnePerStore(ps) && HasPeer(ps, from) && !HasPeer(ps, p.storeId)
    ensures var qs := WithoutStore(ps + [p], from);
            && OnePerStore(qs) && |qs| == |ps| && (forall q :: q in qs <==> (q in ps || q == p) && q.storeId != from)
            && forall s :: HasPeer(qs, s) <==> s == p.storeId || (HasPeer(ps, s) && s != from)
  {
    OnePerStoreLast(ps, p);
    HasPeerLast(ps, p, from);
    WithoutStoreSize(ps + [p], from);
    forall s ensures HasPeer(WithoutStore(ps + [p], from), s) <==> s == p.storeId || (HasPeer(ps, s) && s != from) {
      HasPeerLast(ps, p, s);
      WithoutStoreStores(ps + [p], from, s);
    }
    forall q ensures q in WithoutStore(ps + [p], from) <==> (q in ps || q == p) && q.storeId != from {
      WithoutStoreKeeps(ps + [p], from, q);
    }
  }

  /** `m` is the region `r` with its peer on `from` replaced by one on `to`: as many peers
      as before, one per store, the leader still among them. */
  ghost predicate Relocates(r: RegionInfo, from: StoreId, to: StoreId, m: RegionInfo) {
    && WellPlaced(m) && m.id == r.id && m.size == r.size && |m.peers| == |r.peers|
    && (m.leader.Some? <==> r.leader.Some?)
    && forall s :: HasPeer(m.peers, s) <==> s == to || (HasPeer(r.peers, s) && s != from)
  }

  /** The steps of a move relocate one peer and change nothing else. */
  lemma {:induction false} MoveRelocates(r: RegionInfo, from: StoreId, to: StoreId, newPeerId: nat)
    requires WellPlaced(r) && HasPeer(r.peers, from) && !HasPeer(r.peers, to)
    ensures Relocates(r, from, to, Moved(r, from, to, newPeerId))
    ensures Regions.Peer(newPeerId, to) in Moved(r, from, to, newPeerId).peers
  {
    MovedByParts(r, from, to, newPeerId);
    var p := Regions.Peer(newPeerId, to);
    SwapPeers(r.peers, from, p);
    HasPeerLast(r.peers, p, to);
    PeerOnStoreFound(r.peers + [p], to);
  }

  /** Every step of an operator is finished once it has been carried out. */
  lemma {:induction false} CarriedIsFinished(step: OpStep, r: RegionInfo)
    requires step.TransferLeader? ==> HasPeer(r.peers, step.toStore)
    requires step.AddPeer? ==> forall i :: 0 <= i < |r.pendingPeers| ==> r.pendingPeers[i].id != step.peerId
    ensures IsFinish(step, Carry(step, r))
  {
    match step
    case AddPeer(to, id) =>
    case TransferLeader(_, to) => PeerOnStoreFound(r.peers, to);
    case RemovePeer(from) => WithoutStoreStores(r.peers, from, from);
  }

  // ---- The measure ----

  ghost function Sum(w: map<nat, nat>): nat {
    if w == map[] then 0
    else
      var k :| k in w;
      Sum(w - {k}) + w[k]
  }

  lemma {:induction false} SumPick(w: map<nat, nat>, k: nat)
    requires k in w
    ensures Sum(w) == Sum(w - {k}) + w[k]
    decreases |w|
  {
    var j :| j in w && Sum(w) == Sum(w - {j}) + w[j];
    if j != k {
      SumPick(w - {j}, k);
      SumPick(w - {k}, j);
      assert w - {j} - {k} == w - {k} - {j};
    }
  }

  /** Two sums that differ at two places only. */
  lemma {:induction false} SumTwo(w: map<nat, nat>, w': map<nat, nat>, a: nat, b: nat)
    requires w.Keys == w'.Keys && a in w && b in w && a != b
    requires forall k :: k in w && k != a && k != b ==> w[k] == w'[k]
    ensures Sum(w) - w[a] - w[b] == Sum(w') - w'[a] - w'[b]
  {
    SumPick(w, a);
    SumPick(w - {a}, b);
    SumPick(w', a);
    SumPick(w' - {a}, b);
    assert w - {a} - {b} == w' - {a} - {b};
  }

  function Square(n: nat): nat {
    n * n
  }

  /** The sum of the squared region sizes of the stores, and that of the squared leader
      counts. */
  ghost function RegionSquares(ids: set<StoreId>, t: Table): nat {
    Sum(Squares(RegionSizes(ids, t)))
  }

  ghost function LeaderSquares(ids: set<StoreId>, t: Table): nat {
    Sum(Squares(LeaderCounts(ids, t)))
  }

  ghost function RegionSizes(ids: set<StoreId>, t: Table): map<StoreId, nat> {
    map s | s in ids :: LoadOf(t, s).regionSize
  }

  ghost function LeaderCounts(ids: set<StoreId>, t: Table): map<StoreId, nat> {
    map s | s in ids :: LoadOf(t, s).leaderCount
  }

  ghost function Squares(w: map<StoreId, nat>): map<StoreId, nat> {
    map s | s in w :: Square(w[s])
  }

  /** `w'` is `w` with `x` shifted from one entry to another. */
  predicate Shifted(w: map<StoreId, nat>, w': map<StoreId, nat>, from: StoreId, to: StoreId, x: nat) {
    && w'.Keys == w.Keys && from in w && to in w && from != to && w[from] >= x
    && forall s :: s in w ==> w'[s] == ShiftedAt(w[s], s, from, to, x)
  }

  function ShiftedAt(n: nat, s: StoreId, from: StoreId, to: StoreId, x: nat): int {
    if s == from then n - x else if s == to then n + x else n
  }

  lemma {:induction false} SquaresShift(w: map<StoreId, nat>, w': map<StoreId, nat>, from: StoreId, to: StoreId, x: nat)
    requires Shifted(w, w', from, to, x)
    ensures Sum(Squares(w')) + Square(w[from]) + Square(w[to]) == Sum(Squares(w)) + Square(w[from] - x)
              + Square(w[to] + x)
  {
    var q, q' := Squares(w), Squares(w');
    assert q.Keys == q'.Keys == w.Keys;
    SumTwo(q, q', from, to);
  }

  lemma {:induction false} LoadWith(t: Table, k: RegionId, r: RegionInfo, s: StoreId)
    ensures LoadOf(t[k := r], s) == Plus(LoadOf(t - {k}, s), Share(r, s))
  {
    assert (t - {k})[k := r] == t[k := r];
    LoadAdd(t - {k}, s, r, k);
  }

  lemma {:induction false} ShareSize(r: RegionInfo, s: StoreId)
    requires WellPlaced(r)
    ensures Share(r, s).regionSize == if HasPeer(r.peers, s) then r.size else 0
    ensures Share(r, s).regionCount == if HasPeer(r.peers, s) then 1 else 0
    ensures Share(r, s).leaderCount == if LedFrom(r, s) then 1 else 0
  {
    SinglePeerLoad(r.peers, r.size, s);
  }

  lemma {:induction false} Expand(b: nat, x: nat, d: nat)
    ensures Square(b + x + d) + Square(b) == Square(b + d) + Square(b + x) + 2 * x * d
  {
    assert Square(b + x + d) == (b + d) * (b + d) + 2 * x * (b + d) + x * x;
    assert Square(b + x) == b * b + 2 * x * b + x * x;
    assert 2 * x * (b + d) == 2 * x * b + 2 * x * d;
  }

  lemma {:induction false} Larger(x: nat, y: nat, z: nat)
    requires y <= z
    ensures 2 * x * y <= 2 * x * z
  {
    assert 2 * x * z == 2 * x * y + 2 * x * (z - y);
  }

  lemma {:induction false} IndexPick(t: Table, s: StoreId, k: RegionId)
    requires k in t
    ensures |Hosted(t, s)| == |Hosted(t - {k}, s)| + if HasPeer(t[k].peers, s) then 1 else 0
    ensures |Led(t, s)| == |Led(t - {k}, s)| + if LedFrom(t[k], s) then 1 else 0
  {
    assert Hosted(t, s) == if HasPeer(t[k].peers, s) then Hosted(t - {k}, s) + {k} else Hosted(t - {k}, s);
    assert Led(t, s) == if LedFrom(t[k], s) then Led(t - {k}, s) + {k} else Led(t - {k}, s);
  }

  /** The counts in a store's load are the sizes of the inverse indexes. */
  lemma {:induction false} CountsMatchIndexes(t: Table, s: StoreId)
    requires forall k :: k in t ==> WellPlaced(t[k])
    ensures LoadOf(t, s).regionCount == |Hosted(t, s)| && LoadOf(t, s).leaderCount == |Led(t, s)|
    decreases |t.Keys|
  {
    if t == map[] {
      assert Shares(t, s) == map[] && Hosted(t, s) == {} && Led(t, s) == {};
    } else {
      var k :| k in t;
      var rest := t - {k};
      assert |rest.Keys| < |t.Keys| by { assert t.Keys == rest.Keys + {k}; }
      CountsMatchIndexes(rest, s);
      LoadPick(t, s, k);
      ShareSize(t[k], s);
      IndexPick(t, s, k);
    }
  }

  /** The sizes of the given regions. */
  ghost function SizesOf(t: Table, ks: set<RegionId>): map<RegionId, nat> {
    map k | k in t && k in ks :: t[k].size
  }

  lemma {:induction false} SizesPick(t: Table, ks: set<RegionId>, rest: set<RegionId>, k: RegionId)
    requires k in t && rest == ks - {k} && ks <= t.Keys
    ensures Sum(SizesOf(t, ks)) == Sum(SizesOf(t - {k}, rest)) + if k in ks then t[k].size else 0
  {
    if k in ks {
      SumPick(SizesOf(t, ks), k);
      assert SizesOf(t, ks) - {k} == SizesOf(t - {k}, rest);
    } else {
      assert SizesOf(t, ks) == SizesOf(t - {k}, rest);
    }
  }

  lemma {:induction false} SharedSizes(r: RegionInfo, s: StoreId)
    requires WellPlaced(r)
    ensures Share(r, s).regionSize == if HasPeer(r.peers, s) then r.size else 0
    ensures Share(r, s).leaderSize == if LedFrom(r, s) then r.size else 0
  {
    SinglePeerLoad(r.peers, r.size, s);
  }

  lemma {:induction false} SizesGrow(t: Table, s: StoreId, k: RegionId)
    requires k in t
    ensures Sum(SizesOf(t, Hosted(t, s))) ==
            Sum(SizesOf(t - {k}, Hosted(t - {k}, s))) + if HasPeer(t[k].peers, s) then t[k].size else 0
    ensures Sum(SizesOf(t, Led(t, s))) ==
            Sum(SizesOf(t - {k}, Led(t - {k}, s))) + if LedFrom(t[k], s) then t[k].size else 0
  {
    assert Hosted(t - {k}, s) == Hosted(t, s) - {k} && Led(t - {k}, s) == Led(t, s) - {k};
    SizesPick(t, Hosted(t, s), Hosted(t - {k}, s), k);
    SizesPick(t, Led(t, s), Led(t - {k}, s), k);
  }

  /** The sizes in a store's load are the sums of the sizes of the regions in its indexes. */
  lemma {:induction false} SizesMatchIndexes(t: Table, s: StoreId)
    requires forall k :: k in t ==> WellPlaced(t[k])
    ensures LoadOf(t, s).regionSize == Sum(SizesOf(t, Hosted(t, s)))
    ensures LoadOf(t, s).leaderSize == Sum(SizesOf(t, Led(t, s)))
    decreases |t.Keys|
  {
    if t == map[] {
      assert Shares(t, s) == map[] && SizesOf(t, Hosted(t, s)) == map[] && SizesOf(t, Led(t, s)) == map[];
    } else {
      var k :| k in t;
      assert |(t - {k}).Keys| < |t.Keys| by { assert t.Keys == (t - {k}).Keys + {k}; }
      SizesMatchIndexes(t - {k}, s);
      LoadPick(t, s, k);
      SharedSizes(t[k], s);
      SizesGrow(t, s, k);
    }
  }

  lemma {:induction false} MoveShifts(a: nat, b: nat, x: nat)
    requires a > b + 2 * x
    ensures Square(a - x) + Square(b + x) + 2 * x * (x + 1) <= Square(a) + Square(b)
  {
    var d := a - b - x;
    Expand(b, x, d);
    Larger(x, x + 1, d);
  }

  lemma {:induction false} ShiftLowers(w: map<StoreId, nat>, w': map<StoreId, nat>, from: StoreId, to: StoreId, x: nat)
    requires Shifted(w, w', from, to, x) && w[from] > w[to] + 2 * x
    ensures Sum(Squares(w')) + 2 * x * (x + 1) <= Sum(Squares(w))
  {
    SquaresShift(w, w', from, to, x);
    MoveShifts(w[from], w[to], x);
  }

  ghost predicate Placed(t: Table) {
    forall k :: k in t ==> t[k].id == k && WellPlaced(t[k])
  }

  /** The move that the region scheduler may order: `from` has a peer of the region, `to`
      has none, and their sizes differ by more than twice the region's. */
  ghost predicate Worthwhile(t: Table, k: RegionId, from: StoreId, to: StoreId) {
    && k in t && HasPeer(t[k].peers, from) && !HasPeer(t[k].peers, to)
    && LoadOf(t, from).regionSize > LoadOf(t, to).regionSize + 2 * t[k].size
  }

  lemma {:induction false} MoveLoads(t: Table, k: RegionId, from: StoreId, to: StoreId, m: RegionInfo, s: StoreId)
    requires Placed(t) && k in t && HasPeer(t[k].peers, from) && !HasPeer(t[k].peers, to)
    requires Relocates(t[k], from, to, m)
    ensures var l, l' := LoadOf(t, s).regionSize, LoadOf(t[k := m], s).regionSize;
            l' == ShiftedAt(l, s, from, to, t[k].size)
  {
    LoadWith(t, k, m, s);
    LoadPick(t, s, k);
    ShareSize(t[k], s);
    ShareSize(m, s);
  }

  lemma {:induction false} SizesShifted(ids: set<StoreId>, t: Table, t': Table, from: StoreId, to: StoreId, x: nat)
    requires from in ids && to in ids && from != to && LoadOf(t, from).regionSize >= x
    requires forall s :: s in ids ==> LoadOf(t', s).regionSize == ShiftedAt(LoadOf(t, s).regionSize, s, from, to, x)
    ensures Shifted(RegionSizes(ids, t), RegionSizes(ids, t'), from, to, x)
  {
  }

  lemma {:induction false} MoveSizes(t: Table, ids: set<StoreId>, k: RegionId, from: StoreId, to: StoreId,
                                     m: RegionInfo)
    requires Placed(t) && Worthwhile(t, k, from, to) && from in ids && to in ids && Relocates(t[k], from, to, m)
    ensures Shifted(RegionSizes(ids, t), RegionSizes(ids, t[k := m]), from, to, t[k].size)
  {
    var t', x := t[k := m], t[k].size;
    forall s | s in ids ensures LoadOf(t', s).regionSize == ShiftedAt(LoadOf(t, s).regionSize, s, from, to, x) {
      MoveLoads(t, k, from, to, m, s);
    }
    SizesShifted(ids, t, t', from, to, x);
  }

  lemma {:induction false} RelocationLowersSquares(t: Table, ids: set<StoreId>, k: RegionId, from: StoreId, to: StoreId,
                                                   m: RegionInfo)
    requires Placed(t) && Worthwhile(t, k, from, to) && from in ids && to in ids && Relocates(t[k], from, to, m)
    ensures RegionSquares(ids, t[k := m]) + 2 * t[k].size * (t[k].size + 1) <= RegionSquares(ids, t)
  {
    MoveSizes(t, ids, k, from, to, m);
    ShiftLowers(RegionSizes(ids, t), RegionSizes(ids, t[k := m]), from, to, t[k].size);
  }

  /** Carrying out the steps of a move that the scheduler may order keeps the placement of
      all regions and the number of peers, and lowers the sum of squared store sizes, by
      at least twice the region's size times one more than it. */
  lemma {:induction false} MoveLowersSquares(t: Table, ids: set<StoreId>, k: RegionId, from: StoreId, to: StoreId,
                                             newPeerId: nat)
    requires Placed(t) && Worthwhile(t, k, from, to) && from in ids && to in ids
    ensures var m := Moved(t[k], from, to, newPeerId);
            && Placed(t[k := m]) && Relocates(t[k], from, to, m)
            && RegionSquares(ids, t[k := m]) + 2 * t[k].size * (t[k].size + 1) <= RegionSquares(ids, t)
  {
    MoveRelocates(t[k], from, to, newPeerId);
    RelocationLowersSquares(t, ids, k, from, to, Moved(t[k], from, to, newPeerId));
  }

  // ---- Leaders ----

  /** The transfer that the leader scheduler may order: the region is led from `from`, has
      a follower on `to`, and the leader counts differ by at least two. */
  ghost predicate Transferable(t: Table, k: RegionId, from: StoreId, to: StoreId) {
    && k in t && LedFrom(t[k], from) && HasPeer(t[k].peers, to) && to != from
    && LoadOf(t, from).leaderCount >= LoadOf(t, to).leaderCount + 2
  }

  /** `m` is `r` led from `to`. */
  predicate Hands(r: RegionInfo, to: StoreId, m: RegionInfo) {
    WellPlaced(m) && m == r.(leader := m.leader) && LedFrom(m, to)
  }

  /** The region after its leader has been transferred. */
  function Handed(r: RegionInfo, from: StoreId, to: StoreId): RegionInfo {
    CarryAll(TransferLeaderOperator(r, from, to).steps, r)
  }

  lemma {:induction false} TransferHands(r: RegionInfo, from: StoreId, to: StoreId)
    requires WellPlaced(r) && HasPeer(r.peers, to)
    ensures Hands(r, to, Handed(r, from, to))
  {
    var steps := [TransferLeader(from, to)];
    assert steps[1..] == [];
    assert CarryAll(steps, r) == CarryAll(steps[1..], Carry(steps[0], r)) == Carry(steps[0], r);
    PeerOnStoreFound(r.peers, to);
  }

  lemma {:induction false} TransferLoads(t: Table, k: RegionId, from: StoreId, to: StoreId, m: RegionInfo, s: StoreId)
    requires Placed(t) && k in t && LedFrom(t[k], from) && to != from && Hands(t[k], to, m)
    ensures LoadOf(t[k := m], s).leaderCount == ShiftedAt(LoadOf(t, s).leaderCount, s, from, to, 1)
    ensures LoadOf(t[k := m], s).regionSize == LoadOf(t, s).regionSize
  {
    LoadWith(t, k, m, s);
    LoadPick(t, s, k);
    ShareSize(t[k], s);
    ShareSize(m, s);
  }

  lemma {:induction false} CountsShifted(ids: set<StoreId>, t: Table, t': Table, from: StoreId, to: StoreId)
    requires from in ids && to in ids && from != to && LoadOf(t, from).leaderCount >= 1
    requires forall s :: s in ids ==> LoadOf(t', s).leaderCount == ShiftedAt(LoadOf(t, s).leaderCount, s, from, to, 1)
    ensures Shifted(LeaderCounts(ids, t), LeaderCounts(ids, t'), from, to, 1)
  {
  }

  lemma {:induction false} ShiftOneLowers(w: map<StoreId, nat>, w': map<StoreId, nat>, from: StoreId, to: StoreId)
    requires Shifted(w, w', from, to, 1) && w[from] >= w[to] + 2
    ensures Sum(Squares(w')) + 2 <= Sum(Squares(w))
  {
    SquaresShift(w, w', from, to, 1);
    Expand(w[to], 1, w[from] - w[to] - 1);
  }

  lemma {:induction false} HandingLowersSquares(t: Table, ids: set<StoreId>, k: RegionId, from: StoreId, to: StoreId,
                                                m: RegionInfo)
    requires Placed(t) && Transferable(t, k, from, to) && from in ids && to in ids && Hands(t[k], to, m)
    ensures LeaderSquares(ids, t[k := m]) + 2 <= LeaderSquares(ids, t)
    ensures RegionSquares(ids, t[k := m]) == RegionSquares(ids, t)
  {
    var t' := t[k := m];
    forall s | s in ids
      ensures LoadOf(t', s).leaderCount == ShiftedAt(LoadOf(t, s).leaderCount, s, from, to, 1)
      ensures LoadOf(t', s).regionSize == LoadOf(t, s).regionSize
    {
      TransferLoads(t, k, from, to, m, s);
    }
    assert RegionSizes(ids, t') == RegionSizes(ids, t);
    CountsShifted(ids, t, t', from, to);
    ShiftOneLowers(LeaderCounts(ids, t), LeaderCounts(ids, t'), from, to);
  }

  lemma {:induction false} HandingKeepsPlaced(t: Table, k: RegionId, to: StoreId, m: RegionInfo)
    requires Placed(t) && k in t && Hands(t[k], to, m)
    ensures Placed(t[k := m])
  {
  }

  /** Carrying out a transfer that the scheduler may order lowers the sum of squared leader
      counts by at least two, and keeps placement and region sizes. */
  lemma {:induction false} TransferLowersSquares(t: Table, ids: set<StoreId>, k: RegionId, from: StoreId, to: StoreId)
    requires Placed(t) && Transferable(t, k, from, to) && from in ids && to in ids
    ensures var m := Handed(t[k], from, to);
            && Placed(t[k := m]) && Hands(t[k], to, m)
            && LeaderSquares(ids, t[k := m]) + 2 <= LeaderSquares(ids, t)
            && RegionSquares(ids, t[k := m]) == RegionSquares(ids, t)
  {
    TransferHands(t[k], from, to);
    HandingKeepsPlaced(t, k, to, Handed(t[k], from, to));
    HandingLowersSquares(t, ids, k, from, to, Handed(t[k], from, to));
  }

  // ---- Both schedulers together ----

  datatype Action =
    | Move(k: RegionId, from: StoreId, to: StoreId, newPeerId: nat)
    | Transfer(k: RegionId, from: StoreId, to: StoreId)

  ghost predicate Orderable(ids: set<StoreId>, t: Table, a: Action) {
    && a.from in ids && a.to in ids
    && match a
       case Move(k, from, to, _) => Worthwhile(t, k, from, to)
       case Transfer(k, from, to) => Transferable(t, k, from, to)
  }

  function StepsOf(r: RegionInfo, a: Action): seq<OpStep> {
    match a
    case Move(_, from, to, newPeerId) => MovePeerOperator(r, from, to, newPeerId).steps
    case Transfer(_, from, to) => TransferLeaderOperator(r, from, to).steps
  }

  function CarryOut(t: Table, a: Action): Table
    requires a.k in t
  {
    t[a.k := CarryAll(StepsOf(t[a.k], a), t[a.k])]
  }

  /** `b` is below `a` in lexicographic order, in the second place by two for every one of
      `n` actions as long as the first stays. */
  predicate Below(a: (nat, nat), b: (nat, nat), n: nat) {
    b.0 < a.0 || (b.0 == a.0 && b.1 + 2 * n <= a.1)
  }

  ghost function Measure(ids: set<StoreId>, t: Table): (nat, nat) {
    (RegionSquares(ids, t), LeaderSquares(ids, t))
  }

  lemma {:induction false} FallingSequence(ms: seq<(nat, nat)>, i: nat, j: nat)
    requires i < j < |ms| && forall k :: 0 <= k < |ms| - 1 ==> Below(ms[k], ms[k + 1], 1)
    ensures Below(ms[i], ms[j], j - i)
    decreases j
  {
    assert Below(ms[j - 1], ms[j - 1 + 1], 1);
    if i < j - 1 { FallingSequence(ms, i, j - 1); }
  }

  lemma {:induction false} ActionFalls(ids: set<StoreId>, t: Table, a: Action)
    requires Placed(t) && Orderable(ids, t, a)
    ensures Placed(CarryOut(t, a)) && Below(Measure(ids, t), Measure(ids, CarryOut(t, a)), 1)
  {
    match a
    case Move(k, from, to, newPeerId) =>
      MoveLowersSquares(t, ids, k, from, to, newPeerId);
      Larger(t[k].size, 1, t[k].size + 1);
    case Transfer(k, from, to) =>
      TransferLowersSquares(t, ids, k, from, to);
  }

  ghost predicate BalanceRun(ids: set<StoreId>, ts: seq<Table>, actions: seq<Action>) {
    && |ts| == |actions| + 1 && Placed(ts[0])
    && forall i {:trigger actions[i]} :: 0 <= i < |actions| ==>
         Orderable(ids, ts[i], actions[i]) && ts[i + 1] == CarryOut(ts[i], actions[i])
  }

  lemma {:induction false} RunPlaced(ids: set<StoreId>, ts: seq<Table>, actions: seq<Action>, i: nat)
    requires BalanceRun(ids, ts, actions) && i < |ts|
    ensures Placed(ts[i])
  {
    if i > 0 {
      RunPlaced(ids, ts, actions, i - 1);
      assert ts[i] == CarryOut(ts[i - 1], actions[i - 1]);
      ActionFalls(ids, ts[i - 1], actions[i - 1]);
    }
  }

  lemma {:induction false} StepFalls(ids: set<StoreId>, ts: seq<Table>, actions: seq<Action>, i: nat)
    requires BalanceRun(ids, ts, actions) && i < |actions|
    ensures Below(Measure(ids, ts[i]), Measure(ids, ts[i + 1]), 1)
  {
    RunPlaced(ids, ts, actions, i);
    var t, a, t' := ts[i], actions[i], ts[i + 1];
    assert Orderable(ids, t, a) && t' == CarryOut(t, a);
    ActionFalls(ids, t, a);
  }

  ghost function Measures(ids: set<StoreId>, ts: seq<Table>): (ms: seq<(nat, nat)>)
    ensures |ms| == |ts| && forall k :: 0 <= k < |ts| ==> ms[k] == Measure(ids, ts[k])
  {
    if ts == [] then [] else Measures(ids, ts[..|ts| - 1]) + [Measure(ids, ts[|ts| - 1])]
  }

  lemma {:induction false} MeasuresFall(ids: set<StoreId>, ts: seq<Table>, actions: seq<Action>, k: nat)
    requires BalanceRun(ids, ts, actions) && k < |actions|
    ensures Below(Measures(ids, ts)[k], Measures(ids, ts)[k + 1], 1)
  {
    StepFalls(ids, ts, actions, k);
  }

  /** Balancing terminates: along every run of moves and transfers that the two schedulers
      may order from up-to-date statistics, in any mixture, the pair of the two sums of
      squares strictly falls from every state to every later one. */
  lemma {:induction false} BalancingFalls(ids: set<StoreId>, ts: seq<Table>, actions: seq<Action>, i: nat, j: nat)
    requires BalanceRun(ids, ts, actions) && i < j < |ts|
    ensures Below(Measures(ids, ts)[i], Measures(ids, ts)[j], j - i)
  {
    var ms := Measures(ids, ts);
    forall k | 0 <= k < |ms| - 1 ensures Below(ms[k], ms[k + 1], 1) {
      MeasuresFall(ids, ts, actions, k);
    }
    FallingSequence(ms, i, j);
  }
}
