/** How many orders balancing can take. */
module BalanceBound {
  import opened Options
  import opened ClusterModel
  import opened Balance

  // ---- The leader counts add up to no more than the regions ----

  lemma {:induction false} SumZero(w: map<nat, nat>)
    requires forall k :: k in w ==> w[k] == 0
    ensures Sum(w) == 0
    decreases |w|
  {
    if w != map[] {
      var k :| k in w;
      SumPick(w, k);
      SumZero(w - {k});
    }
  }

  /** One entry is larger by one, or none. */
  lemma {:induction false} SumOneUp(w: map<nat, nat>, w': map<nat, nat>, a: nat)
    requires w.Keys == w'.Keys && forall k :: k in w ==> w'[k] == w[k] + if k == a then 1 else 0
    ensures Sum(w') <= Sum(w) + 1
  {
    if a in w {
      SumPick(w, a);
      SumPick(w', a);
      assert w - {a} == w' - {a};
    } else {
      assert w == w';
    }
  }

  lemma {:induction false} CountWithOne(t: Table, k: RegionId, s: StoreId)
    requires k in t && WellPlaced(t[k])
    ensures LoadOf(t, s).leaderCount == LoadOf(t - {k}, s).leaderCount + if LedFrom(t[k], s) then 1 else 0
  {
    LoadPick(t, s, k);
    ShareSize(t[k], s);
  }

  lemma {:induction false} NothingLed(ids: set<StoreId>)
    ensures Sum(LeaderCounts(ids, map[])) == 0
  {
    forall s | s in ids ensures LeaderCounts(ids, map[])[s] == 0 {
      assert Shares(map[], s) == map[];
    }
    SumZero(LeaderCounts(ids, map[]));
  }

  lemma {:induction false} LeadersAtMostRegions(ids: set<StoreId>, t: Table)
    requires forall k :: k in t ==> WellPlaced(t[k])
    ensures Sum(LeaderCounts(ids, t)) <= |t|
    decreases |t.Keys|
  {
    if t == map[] {
      NothingLed(ids);
    } else {
      var k :| k in t;
      var rest := t - {k};
      assert t.Keys == rest.Keys + {k};
      LeadersAtMostRegions(ids, rest);
      var a := if t[k].leader.Some? then t[k].leader.value.storeId else 0;
      if t[k].leader.Some? {
        OneRegionMore(ids, t, k, a);
      } else {
        NoLeaderMore(ids, t, k);
      }
    }
  }

  lemma {:induction false} OneRegionMore(ids: set<StoreId>, t: Table, k: RegionId, a: StoreId)
    requires k in t && WellPlaced(t[k]) && LedFrom(t[k], a)
    ensures Sum(LeaderCounts(ids, t)) <= Sum(LeaderCounts(ids, t - {k})) + 1
  {
    var w, w' := LeaderCounts(ids, t - {k}), LeaderCounts(ids, t);
    forall s | s in ids ensures w'[s] == w[s] + if s == a then 1 else 0 {
      CountWithOne(t, k, s);
    }
    SumOneUp(w, w', a);
  }

  lemma {:induction false} NoLeaderMore(ids: set<StoreId>, t: Table, k: RegionId)
    requires k in t && WellPlaced(t[k]) && t[k].leader.None?
    ensures LeaderCounts(ids, t) == LeaderCounts(ids, t - {k})
  {
    forall s | s in ids ensures LeaderCounts(ids, t)[s] == LeaderCounts(ids, t - {k})[s] {
      CountWithOne(t, k, s);
    }
  }

  lemma {:induction false} SquareOfSum(a: nat, b: nat, sum: nat, q: nat)
    requires sum == a + b && q <= Square(a)
    ensures q + Square(b) <= Square(sum)
  {
    assert Square(a + b) == Square(a) + Square(b) + 2 * (a * b);
  }

  lemma {:induction false} SquaresBelowSquare(w: map<StoreId, nat>)
    ensures Sum(Squares(w)) <= Square(Sum(w))
    decreases |w|
  {
    if w == map[] {
      assert Squares(w) == map[];
    } else {
      var k :| k in w;
      SumPick(w, k);
      SquaresPick(w, k);
      SquaresBelowSquare(w - {k});
      SquareOfSum(Sum(w - {k}), w[k], Sum(w), Sum(Squares(w - {k})));
    }
  }

  lemma {:induction false} SquaresPick(w: map<StoreId, nat>, k: StoreId)
    requires k in w
    ensures Sum(Squares(w)) == Sum(Squares(w - {k})) + Square(w[k])
  {
    SumPick(Squares(w), k);
    assert Squares(w) - {k} == Squares(w - {k});
  }

  lemma {:induction false} SquareGrows(a: nat, b: nat)
    requires a <= b
    ensures Square(a) <= Square(b)
  {
    assert Square(b) == Square(a) + (b - a) * (b + a);
  }

  /** However leaders are spread, the sum of their squared counts is at most the square of
      the number of regions. */
  lemma {:induction false} LeaderSquaresBound(ids: set<StoreId>, t: Table)
    requires forall k :: k in t ==> WellPlaced(t[k])
    ensures LeaderSquares(ids, t) <= Square(|t|)
  {
    LeadersAtMostRegions(ids, t);
    SquaresBelowSquare(LeaderCounts(ids, t));
    SquareGrows(Sum(LeaderCounts(ids, t)), |t|);
  }

  // ---- The bound ----

  /** One number for the pair of sums, when the second stays within `cap`. */
  function Potential(m: (nat, nat), cap: nat): nat {
    m.0 * (cap + 1) + m.1
  }

  lemma {:induction false} PotentialFalls(a: (nat, nat), b: (nat, nat), cap: nat)
    requires Below(a, b, 1) && b.1 <= cap
    ensures Potential(b, cap) < Potential(a, cap)
  {
    if b.0 < a.0 { OneTimesMore(b.0, a.0, cap + 1); }
  }

  lemma {:induction false} OneTimesMore(x: nat, y: nat, c: nat)
    requires x < y
    ensures x * c + c <= y * c
    decreases y
  {
    assert y * c == (y - 1) * c + c;
    if x < y - 1 { OneTimesMore(x, y - 1, c); }
  }

  lemma {:induction false} LengthBound(ms: seq<(nat, nat)>, cap: nat, n: nat)
    requires n < |ms| && (forall k :: 0 <= k < |ms| ==> ms[k].1 <= cap)
    requires forall k :: 0 <= k < |ms| - 1 ==> Below(ms[k], ms[k + 1], 1)
    ensures n + Potential(ms[n], cap) <= Potential(ms[0], cap)
  {
    if n > 0 {
      LengthBound(ms, cap, n - 1);
      assert Below(ms[n - 1], ms[n - 1 + 1], 1);
      PotentialFalls(ms[n - 1], ms[n], cap);
    }
  }

  lemma {:induction false} SameRegions(ids: set<StoreId>, ts: seq<Table>, actions: seq<Action>, i: nat)
    requires BalanceRun(ids, ts, actions) && i < |ts|
    ensures ts[i].Keys == ts[0].Keys
  {
    if i > 0 {
      SameRegions(ids, ts, actions, i - 1);
      assert ts[i] == CarryOut(ts[i - 1], actions[i - 1]);
    }
  }

  lemma {:induction false} LeaderSquaresWithin(ids: set<StoreId>, ts: seq<Table>, actions: seq<Action>, i: nat)
    requires BalanceRun(ids, ts, actions) && i < |ts|
    ensures Measures(ids, ts)[i].1 <= Square(|ts[0]|)
  {
    RunPlaced(ids, ts, actions, i);
    SameRegions(ids, ts, actions, i);
    assert |ts[i]| == |ts[i].Keys| && |ts[0]| == |ts[0].Keys|;
    LeaderSquaresBound(ids, ts[i]);
  }

  /** Balancing ends: a run of orders, moves and transfers in any mixture, is no longer than
      the sum of squared store sizes at its start, times one more than the square of the
      number of regions, plus the sum of squared leader counts at its start. */
  lemma {:induction false} BalancingEnds(ids: set<StoreId>, ts: seq<Table>, actions: seq<Action>)
    requires BalanceRun(ids, ts, actions)
    ensures |actions| <= RegionSquares(ids, ts[0]) * (Square(|ts[0]|) + 1) + LeaderSquares(ids, ts[0])
  {
    var ms, cap := Measures(ids, ts), Square(|ts[0]|);
    forall k | 0 <= k < |ms| - 1 ensures Below(ms[k], ms[k + 1], 1) {
      MeasuresFall(ids, ts, actions, k);
    }
    forall k | 0 <= k < |ms| ensures ms[k].1 <= cap {
      LeaderSquaresWithin(ids, ts, actions, k);
    }
    LengthBound(ms, cap, |actions|);
  }
}
