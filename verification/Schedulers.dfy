/** The two balancing schedulers: which move or transfer they order. */
module Schedulers {
  import opened Options
  import opened ClusterModel
  import opened BasicCluster
  import opened Balance

  const RETRY_LIMIT := 10

  // ---- Ordering stores ----

  datatype Order = FewestRegions | MostRegions | FewestLeaders | MostLeaders

  /** `a` need not come after `b`. */
  predicate NotAfter(o: Order, a: StoreInfo, b: StoreInfo) {
    match o
    case FewestRegions =>
      a.load.regionCount < b.load.regionCount
      || (a.load.regionCount == b.load.regionCount && a.load.regionSize <= b.load.regionSize)
    case MostRegions =>
      a.load.regionCount > b.load.regionCount
      || (a.load.regionCount == b.load.regionCount && a.load.regionSize >= b.load.regionSize)
    case FewestLeaders => a.load.leaderCount <= b.load.leaderCount
    case MostLeaders => a.load.leaderCount >= b.load.leaderCount
  }

  predicate Ordered(o: Order, s: seq<StoreInfo>) {
    forall i, j :: 0 <= i < j < |s| ==> NotAfter(o, s[i], s[j])
  }

  method InsertStore(o: Order, s: seq<StoreInfo>, x: StoreInfo) returns (r: seq<StoreInfo>)
    requires Ordered(o, s)
    ensures Ordered(o, r) && multiset(r) == multiset(s) + multiset{x}
  {
    var k := |s|;
    while k > 0 && !NotAfter(o, s[k - 1], x)
      invariant 0 <= k <= |s| && forall j :: k <= j < |s| ==> NotAfter(o, x, s[j])
    {
      k := k - 1;
    }
    r := s[..k] + [x] + s[k..];
    assert s == s[..k] + s[k..];
    InsertOrdered(o, s, x, k);
  }

  lemma {:induction false} NotAfterTransitive(o: Order, a: StoreInfo, b: StoreInfo, c: StoreInfo)
    requires NotAfter(o, a, b) && NotAfter(o, b, c)
    ensures NotAfter(o, a, c)
  {
  }

  lemma {:induction false} InsertOrdered(o: Order, s: seq<StoreInfo>, x: StoreInfo, k: nat)
    requires Ordered(o, s) && k <= |s| && (k > 0 ==> NotAfter(o, s[k - 1], x))
    requires forall j :: k <= j < |s| ==> NotAfter(o, x, s[j])
    ensures Ordered(o, s[..k] + [x] + s[k..])
  {
    var r := s[..k] + [x] + s[k..];
    forall i, j | 0 <= i < j < |r| ensures NotAfter(o, r[i], r[j]) {
      assert r[i] == if i < k then s[i] else if i == k then x else s[i - 1];
      assert r[j] == if j < k then s[j] else if j == k then x else s[j - 1];
      if i < k == j && i < k - 1 { NotAfterTransitive(o, s[i], s[k - 1], x); }
    }
  }

  method SortStores(o: Order, s: seq<StoreInfo>) returns (r: seq<StoreInfo>)
    ensures Ordered(o, r) && multiset(r) == multiset(s)
  {
    r := [];
    for i := 0 to |s|
      invariant Ordered(o, r) && multiset(r) == multiset(s[..i])
    {
      assert s[..i + 1] == s[..i] + [s[i]];
      r := InsertStore(o, r, s[i]);
    }
    assert s[..|s|] == s;
  }

  /** The state filter lets the store through: it is up, not blocked and was heard of within
      the time allowed. */
  predicate Usable(x: StoreInfo, maxDown: nat) {
    x.up && !x.blocked && x.downTime <= maxDown
  }

  /** `s` lists exactly the usable stores. */
  ghost predicate ListsUsable(stores: Stores, maxDown: nat, s: seq<StoreInfo>) {
    forall x {:trigger x in s} :: x in s <==> x.id in stores && stores[x.id] == x && Usable(x, maxDown)
  }

  /** The usable stores, in the given order. */
  method UsableStores(stores: Stores, maxDown: nat, o: Order) returns (r: seq<StoreInfo>)
    requires forall s :: s in stores ==> stores[s].id == s
    ensures ListsUsable(stores, maxDown, r) && Ordered(o, r)
  {
    var listed: seq<StoreInfo> := [];
    var rest := stores.Keys;
    while rest != {}
      invariant rest <= stores.Keys
      invariant forall x :: x in listed <==> x.id in stores - rest && stores[x.id] == x && Usable(x, maxDown)
    {
      var s :| s in rest;
      var x := stores[s];
      var refused := !x.up || x.blocked || x.downTime > maxDown;
      if !refused { listed := listed + [x]; }
      rest := rest - {s};
    }
    assert stores - rest == stores;
    r := SortStores(o, listed);
    forall x ensures x in r <==> x in listed {
      assert x in multiset(r) <==> x in multiset(listed);
    }
  }

  // ---- Moving a region ----

  /** Source and target sizes differ enough, and the target has no peer of the region. */
  predicate Suits(region: RegionInfo, source: StoreInfo, target: StoreInfo) {
    source.load.regionSize > target.load.regionSize + 2 * region.size && !HasPeer(region.peers, target.id)
  }

  /** The first suitable target, and the order to move there; nothing exactly when no
      target suits. */
  method TryCreateMovePeerOperator(region: RegionInfo, source: StoreInfo, targets: seq<StoreInfo>)
    returns (op: Option<Operator>, to: nat, newPeerId: nat)
    ensures op.None? <==> forall i :: 0 <= i < |targets| ==> !Suits(region, source, targets[i])
    ensures op.Some? ==>
              && to < |targets| && Suits(region, source, targets[to])
              && (forall i :: 0 <= i < to ==> !Suits(region, source, targets[i]))
              && op.value == MovePeerOperator(region, source.id, targets[to].id, newPeerId)
              && 10000 <= newPeerId < 99999
  {
    to, newPeerId := 0, 0;
    while to < |targets|
      invariant 0 <= to <= |targets| && forall i :: 0 <= i < to ==> !Suits(region, source, targets[i])
    {
      var target := targets[to];
      if source.load.regionSize <= target.load.regionSize + 2 * region.size || HasPeer(region.peers, target.id) {
        to := to + 1;
      } else {
        newPeerId :| 10000 <= newPeerId < 99999;
        op := Some(MovePeerOperator(region, source.id, target.id, newPeerId));
        return;
      }
    }
    op := None;
  }

  /** The order is to move a region that has a peer on, or is led from, the usable store
      `from` to the usable store `to`, which suits and of all that suit has the fewest
      regions and, among those, the smallest size. */
  ghost predicate ScheduledMove(stores: Stores, maxDown: nat, t: Table, op: Operator, a: Action) {
    && a.Move? && a.k in t && a.from in stores && a.to in stores && Usable(stores[a.from], maxDown)
    && Usable(stores[a.to], maxDown)
    && op == MovePeerOperator(t[a.k], a.from, a.to, a.newPeerId)
    && (a.k in Hosted(t, a.from) || a.k in Led(t, a.from)) && Suits(t[a.k], stores[a.from], stores[a.to])
    && forall x :: x in stores && Usable(stores[x], maxDown) && Suits(t[a.k], stores[a.from], stores[x]) ==>
         !CarriesMore(stores[a.to], stores[x])
  }

  /** `x` has more regions than `y`, or as many and a larger size. */
  predicate CarriesMore(x: StoreInfo, y: StoreInfo) {
    || x.load.regionCount > y.load.regionCount
    || (x.load.regionCount == y.load.regionCount && x.load.regionSize > y.load.regionSize)
  }

  /** A region for which no usable store suits. */
  ghost predicate NoTarget(stores: Stores, maxDown: nat, region: RegionInfo, source: StoreInfo) {
    forall x :: x in stores && Usable(stores[x], maxDown) ==> !Suits(region, source, stores[x])
  }

  /** There is none of these regions, or one that was tried has no target. */
  ghost predicate TriedMove(stores: Stores, maxDown: nat, t: Table, source: StoreInfo, ks: set<RegionId>) {
    ks == {} || exists k :: k in ks && k in t && NoTarget(stores, maxDown, t[k], source)
  }

  /** The source was tried in vain, with a pending region, one it follows and one it leads. */
  ghost predicate NoMoveFrom(stores: Stores, maxDown: nat, t: Table, s: StoreId)
    requires s in stores
  {
    && TriedMove(stores, maxDown, t, stores[s], set k | k in Hosted(t, s) && t[k].pendingPeers != [])
    && TriedMove(stores, maxDown, t, stores[s],
                 set k | k in Hosted(t, s) && t[k].pendingPeers == [] && !LedFrom(t[k], s))
    && TriedMove(stores, maxDown, t, stores[s], set k | k in Led(t, s) && t[k].pendingPeers == [])
  }

  method OrderMove(c: BasicCluster, maxDown: nat, region: RegionInfo, source: StoreInfo, targets: seq<StoreInfo>)
    returns (op: Option<Operator>, a: Action)
    requires c.Valid() && source.id in c.stores && c.stores[source.id] == source && Usable(source, maxDown)
    requires ListsUsable(c.stores, maxDown, targets) && Ordered(FewestRegions, targets)
    requires region.id in c.regions && c.regions[region.id] == region
    requires region.id in Hosted(c.regions, source.id) || region.id in Led(c.regions, source.id)
    ensures op.Some? ==> ScheduledMove(c.stores, maxDown, c.regions, op.value, a) && a.from == source.id
    ensures op.None? ==> NoTarget(c.stores, maxDown, region, source)
  {
    var i, id;
    op, i, id := TryCreateMovePeerOperator(region, source, targets);
    if op.None? {
      a := Transfer(0, 0, 0);
      forall x | x in c.stores && Usable(c.stores[x], maxDown) ensures !Suits(region, source, c.stores[x]) {
        assert c.stores[x] in targets;
      }
    } else {
      a := Move(region.id, source.id, targets[i].id, id);
      assert targets[i] in targets;
      forall x | x in c.stores && Usable(c.stores[x], maxDown) && Suits(region, source, c.stores[x])
        ensures !CarriesMore(targets[i], c.stores[x])
      {
        assert c.stores[x] in targets;
      }
    }
  }

  /** One attempt at a source: a pending region first, then one it follows, then one it
      leads. */
  method Attempt(c: BasicCluster, maxDown: nat, source: StoreInfo, targets: seq<StoreInfo>)
    returns (op: Option<Operator>, a: Action)
    requires c.Valid() && source.id in c.stores && c.stores[source.id] == source && Usable(source, maxDown)
    requires ListsUsable(c.stores, maxDown, targets) && Ordered(FewestRegions, targets)
    ensures op.Some? ==> ScheduledMove(c.stores, maxDown, c.regions, op.value, a) && a.from == source.id
    ensures op.None? ==> NoMoveFrom(c.stores, maxDown, c.regions, source.id)
  {
    var region := c.RandPendingRegion(source.id);
    if region.Some? {
      op, a := OrderMove(c, maxDown, region.value, source, targets);
      if op.Some? { return; }
    }
    region := c.RandFollowerRegion(source.id);
    if region.Some? {
      op, a := OrderMove(c, maxDown, region.value, source, targets);
      if op.Some? { return; }
    }
    region := c.RandLeaderRegion(source.id);
    if region.Some? {
      op, a := OrderMove(c, maxDown, region.value, source, targets);
      if op.Some? { return; }
    }
    op, a := None, Transfer(0, 0, 0);
  }

  /** In a list of the usable stores, one that must come before another does. */
  lemma {:induction false} ComesBefore(o: Order, stores: Stores, maxDown: nat, list: seq<StoreInfo>, i: nat,
                                       x: StoreInfo)
    returns (j: nat)
    requires ListsUsable(stores, maxDown, list) && Ordered(o, list) && i < |list|
    requires x.id in stores && stores[x.id] == x && Usable(x, maxDown) && !NotAfter(o, list[i], x)
    ensures j < i && list[j] == x
  {
    assert x in list;
    j :| 0 <= j < |list| && list[j] == x;
  }

  /** The region scheduler: a move from the usable store that carries most, or from the next ones
      if that was tried in vain; nothing only if all were tried in vain. */
  method ScheduleRegionMove(c: BasicCluster, maxDown: nat) returns (op: Option<Operator>, a: Action)
    requires c.Valid()
    ensures op.Some? ==> ScheduledMove(c.stores, maxDown, c.regions, op.value, a)
    ensures forall s :: s in c.stores && Usable(c.stores[s], maxDown)
                        && (op.None? || CarriesMore(c.stores[s], c.stores[a.from])) ==>
              NoMoveFrom(c.stores, maxDown, c.regions, s)
  {
    var sources := UsableStores(c.stores, maxDown, MostRegions);
    var targets := UsableStores(c.stores, maxDown, FewestRegions);
    for i := 0 to |sources|
      invariant forall j :: 0 <= j < i ==>
                  sources[j].id in c.stores && NoMoveFrom(c.stores, maxDown, c.regions, sources[j].id)
    {
      assert sources[i] in sources;
      for attempt := 0 to RETRY_LIMIT
        invariant attempt > 0 ==> NoMoveFrom(c.stores, maxDown, c.regions, sources[i].id)
      {
        op, a := Attempt(c, maxDown, sources[i], targets);
        if op.Some? {
          forall s | s in c.stores && Usable(c.stores[s], maxDown) && CarriesMore(c.stores[s], sources[i])
            ensures NoMoveFrom(c.stores, maxDown, c.regions, s)
          {
            var j := ComesBefore(MostRegions, c.stores, maxDown, sources, i, c.stores[s]);
          }
          return;
        }
      }
    }
    forall s | s in c.stores && Usable(c.stores[s], maxDown) ensures NoMoveFrom(c.stores, maxDown, c.regions, s) {
      assert c.stores[s] in sources;
    }
    op, a := None, Transfer(0, 0, 0);
  }

  /** What the region scheduler orders from up-to-date statistics is a move that lowers
      the measure, and its steps are those of that move. */
  lemma {:induction false} ScheduledMoveOrderable(stores: Stores, maxDown: nat, t: Table, op: Operator, a: Action)
    requires ScheduledMove(stores, maxDown, t, op, a) && Loaded(stores, t) && Placed(t)
    requires forall s :: s in stores ==> stores[s].id == s
    ensures Orderable(stores.Keys, t, a) && op.regionId == a.k && op.steps == StepsOf(t[a.k], a)
  {
    if a.k in Led(t, a.from) {
      var p := t[a.k].leader.value;
      var i :| 0 <= i < |t[a.k].peers| && t[a.k].peers[i] == p;
    }
  }

  // ---- Transferring a leader ----

  /** The order is to hand the lead of a healthy region from the usable store `from` to
      the usable store `to` of a follower, with at least two leaders fewer, and none
      with fewer leaders would do. */
  ghost predicate ScheduledTransfer(stores: Stores, maxDown: nat, t: Table, op: Operator, a: Action) {
    && a.Transfer? && a.k in t && a.from in stores && a.to in stores && Usable(stores[a.from], maxDown)
    && Usable(stores[a.to], maxDown)
    && op == TransferLeaderOperator(t[a.k], a.from, a.to) && a.k in Led(t, a.from) && t[a.k].pendingPeers == []
    && Accepts(t[a.k], stores[a.from], stores[a.to])
    && forall x :: x in stores && Usable(stores[x], maxDown) && Accepts(t[a.k], stores[a.from], stores[x]) ==>
         stores[a.to].load.leaderCount <= stores[x].load.leaderCount
  }

  /** The store leads no healthy region, or one that was tried has no follower to take over. */
  ghost predicate NoTransferFrom(stores: Stores, maxDown: nat, t: Table, s: StoreId)
    requires s in stores
  {
    || (forall k :: k in Led(t, s) ==> t[k].pendingPeers != [])
    || (exists k :: k in Led(t, s) && NoFollower(stores, maxDown, t[k], stores[s]))
  }

  ghost predicate NoFollower(stores: Stores, maxDown: nat, region: RegionInfo, source: StoreInfo) {
    forall x :: x in stores && Usable(stores[x], maxDown) ==> !Accepts(region, source, stores[x])
  }

  /** The target follows the region and has at least two leaders fewer. */
  predicate Accepts(region: RegionInfo, source: StoreInfo, target: StoreInfo) {
    && HasPeer(region.peers, target.id) && LeaderStore(region) != Some(target.id)
    && AsI32(source.load.leaderCount) - AsI32(target.load.leaderCount) >= 2
  }

  /** The low 32 bits, read as a signed number. */
  function AsI32(n: nat): int {
    (n + 0x8000_0000) % 0x1_0000_0000 - 0x8000_0000
  }

  method OrderTransfer(region: RegionInfo, source: StoreInfo, targets: seq<StoreInfo>)
    returns (op: Option<Operator>, to: nat)
    ensures op.None? <==> forall i :: 0 <= i < |targets| ==> !Accepts(region, source, targets[i])
    ensures op.Some? ==>
              && to < |targets| && Accepts(region, source, targets[to])
              && (forall i :: 0 <= i < to ==> !Accepts(region, source, targets[i]))
              && op.value == TransferLeaderOperator(region, source.id, targets[to].id)
  {
    to := 0;
    while to < |targets|
      invariant 0 <= to <= |targets| && forall i :: 0 <= i < to ==> !Accepts(region, source, targets[i])
    {
      var target := targets[to];
      if HasPeer(region.peers, target.id) && LeaderStore(region) != Some(target.id) {
        var diff := AsI32(source.load.leaderCount) - AsI32(target.load.leaderCount);
        if diff >= 2 {
          op := Some(TransferLeaderOperator(region, source.id, target.id));
          return;
        }
      }
      to := to + 1;
    }
    op := None;
  }

  method AttemptTransfer(c: BasicCluster, maxDown: nat, source: StoreInfo, targets: seq<StoreInfo>)
    returns (op: Option<Operator>, a: Action)
    requires c.Valid() && source.id in c.stores && c.stores[source.id] == source && Usable(source, maxDown)
    requires ListsUsable(c.stores, maxDown, targets) && Ordered(FewestLeaders, targets)
    ensures op.Some? ==> ScheduledTransfer(c.stores, maxDown, c.regions, op.value, a) && a.from == source.id
    ensures op.None? ==> NoTransferFrom(c.stores, maxDown, c.regions, source.id)
  {
    op, a := None, Transfer(0, 0, 0);
    var region := c.RandLeaderRegion(source.id);
    if region.Some? {
      var i;
      op, i := OrderTransfer(region.value, source, targets);
      if op.Some? {
        a := Transfer(region.value.id, source.id, targets[i].id);
        assert targets[i] in targets;
        forall x | x in c.stores && Usable(c.stores[x], maxDown) && Accepts(region.value, source, c.stores[x])
          ensures targets[i].load.leaderCount <= c.stores[x].load.leaderCount
        {
          assert c.stores[x] in targets;
        }
      } else {
        forall x | x in c.stores && Usable(c.stores[x], maxDown) ensures !Accepts(region.value, source, c.stores[x]) {
          assert c.stores[x] in targets;
        }
        assert NoFollower(c.stores, maxDown, c.regions[region.value.id], source);
      }
    }
  }

  /** The leader scheduler: a transfer from the usable store that leads most, or from the next ones
      if that was tried in vain; nothing only if all were tried in vain. */
  method ScheduleLeaderTransfer(c: BasicCluster, maxDown: nat) returns (op: Option<Operator>, a: Action)
    requires c.Valid()
    ensures op.Some? ==> ScheduledTransfer(c.stores, maxDown, c.regions, op.value, a)
    ensures forall s :: s in c.stores && Usable(c.stores[s], maxDown)
                        && (op.None? || c.stores[s].load.leaderCount > c.stores[a.from].load.leaderCount) ==>
              NoTransferFrom(c.stores, maxDown, c.regions, s)
  {
    var sources := UsableStores(c.stores, maxDown, MostLeaders);
    var targets := UsableStores(c.stores, maxDown, FewestLeaders);
    for i := 0 to |sources|
      invariant forall j :: 0 <= j < i ==>
                  sources[j].id in c.stores && NoTransferFrom(c.stores, maxDown, c.regions, sources[j].id)
    {
      assert sources[i] in sources;
      for attempt := 0 to RETRY_LIMIT
        invariant attempt > 0 ==> NoTransferFrom(c.stores, maxDown, c.regions, sources[i].id)
      {
        op, a := AttemptTransfer(c, maxDown, sources[i], targets);
        if op.Some? {
          forall s | s in c.stores && Usable(c.stores[s], maxDown)
                     && c.stores[s].load.leaderCount > sources[i].load.leaderCount
            ensures NoTransferFrom(c.stores, maxDown, c.regions, s)
          {
            var j := ComesBefore(MostLeaders, c.stores, maxDown, sources, i, c.stores[s]);
          }
          return;
        }
      }
    }
    forall s | s in c.stores && Usable(c.stores[s], maxDown) ensures NoTransferFrom(c.stores, maxDown, c.regions, s) {
      assert c.stores[s] in sources;
    }
    op, a := None, Transfer(0, 0, 0);
  }

  /** What the leader scheduler orders from up-to-date statistics, on stores that lead fewer
      than two to the 31 regions, is a transfer that lowers the measure. */
  lemma {:induction false} ScheduledTransferOrderable(stores: Stores, maxDown: nat, t: Table, op: Operator, a: Action)
    requires ScheduledTransfer(stores, maxDown, t, op, a) && Loaded(stores, t)
    requires forall s :: s in stores ==> stores[s].id == s && stores[s].load.leaderCount < 0x8000_0000
    ensures Orderable(stores.Keys, t, a) && op.regionId == t[a.k].id && op.steps == StepsOf(t[a.k], a)
  {
    SmallCount(stores[a.from].load.leaderCount);
    SmallCount(stores[a.to].load.leaderCount);
  }

  lemma {:induction false} SmallCount(n: nat)
    requires n < 0x8000_0000
    ensures AsI32(n) == n
  {
  }
}
