/** Finding the index a quorum has reached: collect the match indexes, sort them in
    descending order, take the one at the quorum's place. */
module QuorumSelection {
  import opened Options
  import opened RaftModel

  function CountAtLeast(s: seq<Index>, c: Index): nat {
    if s == [] then 0 else CountAtLeast(s[..|s| - 1], c) + if s[|s| - 1] >= c then 1 else 0
  }

  predicate Descending(s: seq<Index>) {
    forall i, j :: 0 <= i < j < |s| ==> s[i] >= s[j]
  }

  lemma {:induction false} CountOfSum(a: seq<Index>, b: seq<Index>, c: Index)
    ensures CountAtLeast(a + b, c) == CountAtLeast(a, c) + CountAtLeast(b, c)
  {
    if b == [] {
      assert a + b == a;
    } else {
      assert (a + b)[..|a + b| - 1] == a + b[..|b| - 1];
      CountOfSum(a, b[..|b| - 1], c);
    }
  }

  lemma {:induction false} CountWithout(s: seq<Index>, k: nat, c: Index)
    requires k < |s|
    ensures CountAtLeast(s, c) == CountAtLeast(s[..k] + s[k + 1..], c) + if s[k] >= c then 1 else 0
  {
    assert s == s[..k] + [s[k]] + s[k + 1..];
    CountOfSum(s[..k] + [s[k]], s[k + 1..], c);
    CountOfSum(s[..k], [s[k]], c);
    CountOfSum(s[..k], s[k + 1..], c);
    assert [s[k]][..0] == [];
    assert CountAtLeast([s[k]], c) == if s[k] >= c then 1 else 0;
  }

  lemma {:induction false} WithoutOne(s: seq<Index>, k: nat)
    requires k < |s|
    ensures multiset(s[..k] + s[k + 1..]) == multiset(s) - multiset{s[k]}
  {
    assert s == s[..k] + [s[k]] + s[k + 1..];
  }

  lemma {:induction false} CountOfPermutation(s: seq<Index>, t: seq<Index>, c: Index)
    requires multiset(s) == multiset(t)
    ensures CountAtLeast(s, c) == CountAtLeast(t, c)
    decreases |s|
  {
    if s == [] {
      assert |multiset(t)| == 0;
    } else {
      var x := s[|s| - 1];
      assert x in multiset(t);
      var k :| 0 <= k < |t| && t[k] == x;
      WithoutOne(s, |s| - 1);
      WithoutOne(t, k);
      assert s[..|s| - 1] + s[|s|..] == s[..|s| - 1];
      CountWithout(t, k, c);
      CountOfPermutation(s[..|s| - 1], t[..k] + t[k + 1..], c);
    }
  }

  lemma {:induction false} CountAll(s: seq<Index>, c: Index)
    requires forall i :: 0 <= i < |s| ==> s[i] >= c
    ensures CountAtLeast(s, c) == |s|
  {
    if s != [] { CountAll(s[..|s| - 1], c); }
  }

  lemma {:induction false} CountAtMost(s: seq<Index>, k: nat, c: Index)
    requires k <= |s| && forall i :: k <= i < |s| ==> s[i] < c
    ensures CountAtLeast(s, c) <= k
    decreases |s|
  {
    if s != [] { CountAtMost(s[..|s| - 1], if k < |s| then k else k - 1, c); }
  }

  /** In descending order, the element at place `q - 1` is reached by at least `q`
      elements, and nothing larger is. */
  lemma {:induction false} AtPlace(s: seq<Index>, q: nat)
    requires Descending(s) && 0 < q <= |s|
    ensures CountAtLeast(s, s[q - 1]) >= q
    ensures forall c :: c > s[q - 1] ==> CountAtLeast(s, c) < q
  {
    assert s == s[..q] + s[q..];
    CountOfSum(s[..q], s[q..], s[q - 1]);
    CountAll(s[..q], s[q - 1]);
    forall c | c > s[q - 1] ensures CountAtLeast(s, c) < q {
      CountAtMost(s, q - 1, c);
    }
  }

  ghost function ReachedAmong(prs: map<NodeId, Progress>, ids: set<NodeId>, c: Index): set<NodeId>
    requires ids <= prs.Keys
  {
    set p | p in ids && prs[p].matchIndex >= c
  }

  lemma {:induction false} OneMore(prs: map<NodeId, Progress>, ids: set<NodeId>, p: NodeId, s: seq<Index>, c: Index)
    requires ids <= prs.Keys && p in prs && p !in ids && CountAtLeast(s, c) == |ReachedAmong(prs, ids, c)|
    ensures CountAtLeast(s + [prs[p].matchIndex], c) == |ReachedAmong(prs, ids + {p}, c)|
  {
    assert (s + [prs[p].matchIndex])[..|s|] == s;
    assert ReachedAmong(prs, ids + {p}, c) == ReachedAmong(prs, ids, c) + if prs[p].matchIndex >= c then {p} else {};
  }

  /** One match index per peer, in some order. */
  method Collect(prs: map<NodeId, Progress>) returns (s: seq<Index>)
    ensures |s| == |prs|
    ensures forall c :: CountAtLeast(s, c) == |Reached(prs, c)|
  {
    s := [];
    var rest := prs.Keys;
    ghost var done: set<NodeId> := {};
    while rest != {}
      invariant done !! rest && done + rest == prs.Keys
      invariant |s| == |done|
      invariant forall c :: CountAtLeast(s, c) == |ReachedAmong(prs, done, c)|
    {
      var p :| p in rest;
      forall c ensures CountAtLeast(s + [prs[p].matchIndex], c) == |ReachedAmong(prs, done + {p}, c)| {
        OneMore(prs, done, p, s, c);
      }
      s := s + [prs[p].matchIndex];
      rest, done := rest - {p}, done + {p};
    }
    assert done == prs.Keys;
    forall c ensures CountAtLeast(s, c) == |Reached(prs, c)| {
      assert ReachedAmong(prs, done, c) == Reached(prs, c);
    }
  }

  method Insert(s: seq<Index>, x: Index) returns (r: seq<Index>)
    requires Descending(s)
    ensures Descending(r) && multiset(r) == multiset(s) + multiset{x}
  {
    var k := 0;
    while k < |s| && s[k] >= x
      invariant 0 <= k <= |s| && forall j :: 0 <= j < k ==> s[j] >= x
    {
      k := k + 1;
    }
    r := s[..k] + [x] + s[k..];
    assert s == s[..k] + s[k..];
  }

  method SortDescending(s: seq<Index>) returns (r: seq<Index>)
    ensures Descending(r) && multiset(r) == multiset(s)
  {
    r := [];
    for i := 0 to |s|
      invariant Descending(r) && multiset(r) == multiset(s[..i])
    {
      assert s[..i + 1] == s[..i] + [s[i]];
      r := Insert(r, s[i]);
    }
    assert s[..|s|] == s;
  }

  /** The index that a quorum has reached, by sorting. */
  method SelectQuorumIndex(prs: map<NodeId, Progress>, q: nat) returns (c: Index)
    requires 0 < q <= |prs|
    ensures IsQuorumIndex(prs, q, c)
  {
    var collected := Collect(prs);
    var matches := SortDescending(collected);
    assert |matches| == |multiset(matches)| == |multiset(collected)| == |prs|;
    c := matches[q - 1];
    AtPlace(matches, q);
    forall i: Index ensures CountAtLeast(matches, i) == |Reached(prs, i)| {
      CountOfPermutation(matches, collected, i);
    }
  }
}
