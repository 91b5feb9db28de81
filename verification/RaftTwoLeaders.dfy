/** Three nodes and one stale heartbeat: a run that gives a term two leaders. */
module RaftTwoLeaders {
  import opened Options
  import opened RaftModel
  import opened RaftElection

  const EMPTY := Log([], 0, 0)

  function Fresh(id: NodeId, p: NodeId, q: NodeId): Node {
    Node(id, 0, NONE, Follower, map[], map[p := Progress(0, 1), q := Progress(0, 1)], NONE, EMPTY, {})
  }

  function Three(): Cluster {
    Cluster({1, 2, 3}, map[1 := Fresh(1, 2, 3), 2 := Fresh(2, 1, 3), 3 := Fresh(3, 1, 2)], {}, {})
  }

  function Timeout(id: NodeId): Event {
    Local(id, Plain(MsgHup, NONE, id, 0))
  }

  /** A vote request of term 1 with an empty log. */
  function Ask(src: NodeId, dst: NodeId): Message {
    Message(MsgRequestVote, dst, src, 1, 0, 0, [], 0, false)
  }

  function Beat(src: NodeId, dst: NodeId): Message {
    Plain(MsgHeartbeat, dst, src, 1)
  }

  /** A node of three with an empty log, whatever it has sent. */
  predicate Plainly(n: Node, id: NodeId, term: Term, vote: NodeId, role: Role) {
    n.id == id && n.term == term && n.vote == vote && n.role == role && n.prs.Keys == {1, 2, 3} - {id}
    && id in {1, 2, 3}
  }

  lemma {:induction false} Campaigns(n: Node)
    requires Plainly(n, n.id, n.term, n.vote, n.role) && n.role != Leader && n.log == EMPTY
    ensures var o := Step(n, Plain(MsgHup, NONE, n.id, 0));
            && o.Stepped? && Plainly(o.node, n.id, n.term + 1, n.id, Candidate) && o.node.log == EMPTY
            && o.node.votes == map[n.id := true]
            && (n.term == 0 ==> forall p :: p in n.prs ==> Ask(n.id, p) in o.node.msgs)
  {
    assert |n.prs.Keys| == 2;
    var o := Campaign(n);
    forall p | p in n.prs && n.term == 0 ensures Ask(n.id, p) in o.node.msgs {
      assert p in Peers(BecomeCandidate(n));
      assert VoteRequest(BecomeCandidate(n), p, 0) == Ask(n.id, p);
    }
  }

  lemma {:induction false} Votes(n: Node, src: NodeId)
    requires Plainly(n, n.id, n.term, n.vote, Follower) && n.log == EMPTY && src != n.id
    requires n.term == 0 || (n.term == 1 && n.vote == NONE)
    ensures var o := Step(n, Ask(src, n.id));
            && o.Stepped? && Plainly(o.node, n.id, 1, src, Follower) && o.node.log == EMPTY
            && Vote(n.id, src, 1) in o.node.msgs
  {
  }

  lemma {:induction false} TakesOver(n: Node)
    requires n.log == EMPTY && n.term == 1
    ensures BecomeLeader(n).Stepped? && BecomeLeader(n).node.log.committed == 0
  {
    var log := Append(n.log, [Entry(Normal, 1, 1, [])]).value;
    assert log.entries == [Entry(Normal, 1, 1, [])];
    var l := n.(role := Leader, lead := n.id, prs := map p | p in n.prs :: Progress(0, 1), log := log);
    forall p | p in Peers(l) ensures AppendMessage(l, p).Some? {
    }
    BcastAppendEffect(l);
  }

  lemma {:induction false} TwoOfThree(n: Node, voter: NodeId)
    requires Plainly(n, n.id, 1, n.id, Candidate) && n.votes == map[n.id := true] && voter in n.prs
    ensures |Granted(n.votes[voter := true])| >= Quorum(n)
  {
    assert Granted(n.votes[voter := true]) == {n.id, voter} && |n.prs.Keys| == 2;
  }

  lemma {:induction false} Wins(n: Node, voter: NodeId)
    requires Plainly(n, n.id, 1, n.id, Candidate) && n.log == EMPTY && n.votes == map[n.id := true] && voter in n.prs
    ensures var o := Step(n, Vote(voter, n.id, 1));
            o.Stepped? && Plainly(o.node, n.id, 1, n.id, Leader) && o.node.log.committed == 0
  {
    TwoOfThree(n, voter);
    var v := n.(votes := n.votes[voter := true]);
    TakesOver(v);
    BecomeLeaderEffect(v);
    assert HandleRequestVoteResponse(n, Vote(voter, n.id, 1)) == BecomeLeader(v);
  }

  lemma {:induction false} Beats(n: Node, p: NodeId)
    requires Plainly(n, n.id, 1, n.id, Leader) && n.log.committed == 0 && p in n.prs
    ensures var o := Step(n, Plain(MsgBeat, NONE, n.id, 0));
            o.Stepped? && Plainly(o.node, n.id, 1, n.id, Leader) && Beat(n.id, p) in o.node.msgs
  {
    assert p in Peers(n) && HeartbeatMessage(n, p) == Beat(n.id, p);
  }

  lemma {:induction false} FallsBack(n: Node, src: NodeId)
    requires Plainly(n, n.id, 2, n.id, Candidate) && n.log == EMPTY
    ensures var o := Step(n, Beat(src, n.id));
            && o.Stepped? && Plainly(o.node, n.id, 1, NONE, Follower) && o.node.log == EMPTY
  {
  }

  // ---- The run ----

  ghost function Last(r: Run): Cluster
    requires |r.states| > 0
  {
    r.states[|r.states| - 1]
  }

  /** `r'` is `r` and one more event at node `i`, which is then `n`. */
  ghost predicate Goes(r: Run, i: NodeId, n: Node, r': Run)
    requires |r.states| > 0 && |r'.states| > 0
  {
    && Last(r').nodes == Last(r).nodes[i := n] && Last(r).net + n.msgs <= Last(r').net
    && Last(r).leaders <= Last(r').leaders
    && (n.role == Leader ==> (n.term, n.id) in Last(r').leaders)
  }

  lemma {:induction false} Extend(r: Run, e: Event) returns (r': Run)
    requires Possible(r) && CanHappen(Last(r), e)
    ensures Possible(r') && Goes(r, Target(e), NodeAfter(Last(r), e), r')
    ensures !Guarded(r) || Stale(Last(r), e) ==> !Guarded(r')
  {
    r' := Run(r.states + [Happen(Last(r), e)], r.events + [e]);
    forall k | 0 <= k < |r'.events| ensures Follows(r'.states[k], r'.events[k], r'.states[k + 1]) {
      assert k < |r.events| ==> r'.events[k] == r.events[k];
    }
    if Stale(Last(r), e) { assert r'.events[|r.events|] == e; }
    if !Guarded(r) {
      var k :| 0 <= k < |r.events| && Stale(r.states[k], r.events[k]);
      assert r'.events[k] == r.events[k];
    }
  }

  lemma {:induction false} CampaignNext(r: Run, i: NodeId) returns (r': Run, n: Node)
    requires Possible(r) && i in Last(r).nodes
    requires var o := Last(r).nodes[i]; Plainly(o, i, o.term, o.vote, o.role) && o.role != Leader && o.log == EMPTY
    ensures Possible(r') && Goes(r, i, n, r') && (!Guarded(r) ==> !Guarded(r'))
    ensures Plainly(n, i, Last(r).nodes[i].term + 1, i, Candidate) && n.log == EMPTY && n.votes == map[i := true]
    ensures Last(r).nodes[i].term == 0 ==> forall p :: p in {1, 2, 3} - {i} ==> Ask(i, p) in n.msgs
  {
    Campaigns(Last(r).nodes[i]);
    r' := Extend(r, Timeout(i));
    n := NodeAfter(Last(r), Timeout(i));
  }

  lemma {:induction false} VoteNext(r: Run, i: NodeId, src: NodeId) returns (r': Run, n: Node)
    requires Possible(r) && i in Last(r).nodes && Ask(src, i) in Last(r).net && src != i
    requires var o := Last(r).nodes[i];
             && Plainly(o, i, o.term, o.vote, Follower) && o.log == EMPTY
             && (o.term == 0 || (o.term == 1 && o.vote == NONE))
    ensures Possible(r') && Goes(r, i, n, r') && (!Guarded(r) ==> !Guarded(r'))
    ensures Plainly(n, i, 1, src, Follower) && n.log == EMPTY && Vote(i, src, 1) in n.msgs
  {
    Votes(Last(r).nodes[i], src);
    r' := Extend(r, Deliver(Ask(src, i)));
    n := NodeAfter(Last(r), Deliver(Ask(src, i)));
  }

  lemma {:induction false} WinNext(r: Run, i: NodeId, voter: NodeId) returns (r': Run, n: Node)
    requires Possible(r) && i in Last(r).nodes && Vote(voter, i, 1) in Last(r).net
    requires var o := Last(r).nodes[i];
             Plainly(o, i, 1, i, Candidate) && o.log == EMPTY && o.votes == map[i := true] && voter in o.prs
    ensures Possible(r') && Goes(r, i, n, r') && (!Guarded(r) ==> !Guarded(r'))
    ensures Plainly(n, i, 1, i, Leader) && n.log.committed == 0
  {
    Wins(Last(r).nodes[i], voter);
    r' := Extend(r, Deliver(Vote(voter, i, 1)));
    n := NodeAfter(Last(r), Deliver(Vote(voter, i, 1)));
  }

  lemma {:induction false} BeatNext(r: Run, i: NodeId, p: NodeId) returns (r': Run, n: Node)
    requires Possible(r) && i in Last(r).nodes
    requires var o := Last(r).nodes[i]; Plainly(o, i, 1, i, Leader) && o.log.committed == 0 && p in o.prs
    ensures Possible(r') && Goes(r, i, n, r') && Beat(i, p) in n.msgs
  {
    Beats(Last(r).nodes[i], p);
    var e := Local(i, Plain(MsgBeat, NONE, i, 0));
    r' := Extend(r, e);
    n := NodeAfter(Last(r), e);
  }

  lemma {:induction false} FallBackNext(r: Run, i: NodeId, src: NodeId) returns (r': Run, n: Node)
    requires Possible(r) && i in Last(r).nodes && Beat(src, i) in Last(r).net
    requires var o := Last(r).nodes[i]; Plainly(o, i, 2, i, Candidate) && o.log == EMPTY
    ensures Possible(r') && Goes(r, i, n, r') && !Guarded(r')
    ensures Plainly(n, i, 1, NONE, Follower) && n.log == EMPTY
  {
    FallsBack(Last(r).nodes[i], src);
    r' := Extend(r, Deliver(Beat(src, i)));
    n := NodeAfter(Last(r), Deliver(Beat(src, i)));
  }

  lemma {:induction false} Begin() returns (r: Run)
    ensures Possible(r) && Last(r) == Three()
  {
    r := Run([Three()], []);
  }

  /** Nodes 1 and 3 campaign in term 1, node 2 votes for node 1, and node 1 leads. */
  lemma {:induction false} FirstLeader() returns (r: Run)
    ensures Possible(r) && Last(r).nodes.Keys == {1, 2, 3} && Ask(3, 2) in Last(r).net && (1, 1) in Last(r).leaders
    ensures var ns := Last(r).nodes;
            && Plainly(ns[1], 1, 1, 1, Leader) && ns[1].log.committed == 0
            && Plainly(ns[2], 2, 1, 1, Follower) && ns[2].log == EMPTY
            && Plainly(ns[3], 3, 1, 3, Candidate) && ns[3].log == EMPTY && ns[3].votes == map[3 := true]
  {
    r := Begin();
    var n;
    r, n := CampaignNext(r, 1);
    r, n := CampaignNext(r, 3);
    r, n := VoteNext(r, 2, 1);
    r, n := WinNext(r, 1, 2);
  }

  /** Node 2 campaigns in term 2, is thrown back to term 1 by a heartbeat of node 1 and
      votes again in that term, for node 3: without the guard on stale messages a term
      can have two leaders. */
  lemma {:induction false} TwoLeadersPossible() returns (r: Run)
    ensures Possible(r) && !Guarded(r) && !OneLeaderPerTerm(Last(r))
  {
    r := FirstLeader();
    var n;
    r, n := BeatNext(r, 1, 2);
    r, n := CampaignNext(r, 2);
    r, n := FallBackNext(r, 2, 1);
    r, n := VoteNext(r, 2, 3);
    r, n := WinNext(r, 3, 2);
    assert (1, 1) in Last(r).leaders && (1, 3) in Last(r).leaders;
  }
}
