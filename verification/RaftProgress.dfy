/** Elections that can be won, and how votes decide them. */
module RaftProgress {
  import opened Options
  import opened FiniteSets
  import opened RaftModel
  import opened RaftElection
  import opened RaftVoting
  import opened RaftCommit
  import opened RaftReplication

  // ---- An election that can be won ----

  /** The events lead from one state of the cluster to another. */
  ghost predicate Leads(c: Cluster, es: seq<Event>, c': Cluster)
    decreases |es|
  {
    if |es| == 0 then c' == c
    else exists c1 {:trigger Leads(c1, es[1..], c')} :: Follows(c, es[0], c1) && Leads(c1, es[1..], c')
  }

  lemma {:induction false} LeadsFirst(c: Cluster, e: Event, c1: Cluster, es: seq<Event>, c': Cluster)
    requires Follows(c, e, c1) && Leads(c1, es, c')
    ensures Leads(c, [e] + es, c')
  {
    assert ([e] + es)[1..] == es;
  }

  /** The append that tells `p` of the new leader: it carries the entry the leader has just added,
      which is of its term. */
  predicate Announcement(n: Node, p: NodeId, x: Message) {
    && x.kind == MsgAppend && x.src == n.id && x.dst == p && x.term == n.term
    && x.entries == [Entry(Normal, n.term, LastIndex(n.log), [])] && n.log.entries != []
    && n.log.entries[|n.log.entries| - 1] == x.entries[0]
  }

  /** The node leads, and has told all its peers. */
  ghost predicate Announced(n: Node, t: Term) {
    && n.role == Leader && n.term == t
    && forall p :: p in n.prs && p != n.id ==> exists x {:trigger x in n.msgs} :: x in n.msgs && Announcement(n, p, x)
  }

  /** A node with a log in order can come to lead. */
  lemma {:induction false} LeadingWorks(n: Node)
    requires Contiguous(n.log.entries) && n.log.committed <= LastIndex(n.log)
    ensures BecomeLeader(n).Stepped? && Announced(BecomeLeader(n).node, n.term)
  {
    var last, e := LastIndex(n.log), Entry(Normal, n.term, LastIndex(n.log) + 1, []);
    var log := Append(n.log, [e]).value;
    var l := n.(role := Leader, lead := n.id, prs := map p | p in n.prs :: Progress(0, last + 1), log := log);
    assert log.entries == n.log.entries + [e];
    forall p | p in Peers(l) ensures AnnouncesTo(l, p) { NewEntrySent(l, p, e); }
    assert BecomeLeader(n) == BcastAppend(l);
    AllTold(l);
  }

  lemma {:induction false} NewEntrySent(l: Node, p: NodeId, e: Entry)
    requires Contiguous(l.log.entries) && l.log.entries != [] && l.log.entries[|l.log.entries| - 1] == e
    requires e == Entry(Normal, l.term, LastIndex(l.log), []) && e.index > 0
    requires p in l.prs && l.prs[p].nextIndex == e.index
    ensures AnnouncesTo(l, p)
  {
    assert l.log.entries[|l.log.entries| - 1..] == [e];
  }

  lemma {:induction false} AllTold(l: Node)
    requires l.role == Leader && forall p :: p in Peers(l) ==> AnnouncesTo(l, p)
    ensures BcastAppend(l).Stepped? && Announced(BcastAppend(l).node, l.term)
  {
    var l' := BcastAppend(l).node;
    forall p | p in l'.prs && p != l'.id
      ensures exists x {:trigger x in l'.msgs} :: x in l'.msgs && Announcement(l', p, x)
    {
      assert AnnouncesTo(l, p);
      assert AppendMessage(l, p).value.value in l'.msgs;
    }
  }

  predicate AnnouncesTo(l: Node, p: NodeId) {
    AppendMessage(l, p).Some? && AppendMessage(l, p).value.Some? && Announcement(l, p, AppendMessage(l, p).value.value)
  }

  /** The node campaigns in term `t`, has asked the voters in `rest`, and has too few votes so far,
      all of them for it. */
  ghost predicate Campaigns(c: Cluster, i: NodeId, t: Term, request: Message) {
    && c.nodes.Keys == c.members && i in c.members
    && var n := c.nodes[i];
       && n.id == i && n.prs.Keys == c.members - {i} && n.role == Candidate && n.term == t && i in Granted(n.votes)
       && Rejected(n.votes) == {} && |Granted(n.votes)| < Quorum(n)
       && Contiguous(n.log.entries) && n.log.committed <= LastIndex(n.log)
       && Describes(request, n.log) && request == VoteRequest(n, request.dst, request.logTerm)
  }

  /** The voter has been asked, is in an earlier term and not ahead. */
  ghost predicate WillVote(c: Cluster, i: NodeId, p: NodeId, t: Term, request: Message) {
    && p in c.nodes && p != i && c.nodes[p].id == p && c.nodes[p].term < t && request.(dst := p) in c.net
    && UpToDate(c.nodes[p].log, request)
  }

  lemma {:induction false} VoterVotes(c: Cluster, i: NodeId, p: NodeId, t: Term, request: Message)
    requires Campaigns(c, i, t, request) && WillVote(c, i, p, t, request)
    ensures var e := Deliver(request.(dst := p));
            && CanHappen(c, e) && Vote(p, i, t) in Happen(c, e).net
            && Happen(c, e).nodes == c.nodes[p := NodeAfter(c, e)]
  {
    var n, m := c.nodes[p], request.(dst := p);
    var v := BecomeFollower(n, t, NONE);
    assert Catch(n, m) == v && Step(n, m) == Stepped(HandleRequestVote(v, m));
    var g := v.(vote := i);
    assert HandleRequestVote(v, m) == Send(g, VoteResponse(g, i, false));
    assert VoteResponse(g, i, false) == Vote(p, i, t);
  }

  lemma {:induction false} VoteCounts(c: Cluster, i: NodeId, p: NodeId, t: Term, request: Message)
    requires Campaigns(c, i, t, request) && p != i && Vote(p, i, t) in c.net
    ensures var e := Deliver(Vote(p, i, t));
            && CanHappen(c, e)
            && var c' := Happen(c, e);
               && c'.nodes == c.nodes[i := NodeAfter(c, e)] && NodeAfter(c, e).term == t
               && (Announced(NodeAfter(c, e), t)
                   || (&& Campaigns(c', i, t, request)
                       && Granted(NodeAfter(c, e).votes) == Granted(c.nodes[i].votes) + {p}))
  {
    var n := c.nodes[i];
    var v := n.(votes := n.votes[p := true]);
    assert Step(n, Vote(p, i, t)) == HandleRequestVoteResponse(n, Vote(p, i, t));
    assert Granted(v.votes) == Granted(n.votes) + {p} && Rejected(v.votes) == {};
    if |Granted(v.votes)| >= Quorum(v) { LeadingWorks(v); }
  }

  /** The voter is asked, and its vote is counted. */
  lemma {:induction false} OneVote(c: Cluster, i: NodeId, p: NodeId, t: Term, request: Message)
    returns (ask: Event, c1: Cluster, vote: Event, c': Cluster)
    requires Campaigns(c, i, t, request) && WillVote(c, i, p, t, request)
    ensures Follows(c, ask, c1) && Follows(c1, vote, c')
    ensures i in c'.nodes && c.net <= c'.net && c'.members == c.members
    ensures forall x :: x in c.nodes && x != i && x != p ==> x in c'.nodes && c'.nodes[x] == c.nodes[x]
    ensures Announced(c'.nodes[i], t)
            || (Campaigns(c', i, t, request) && Granted(c'.nodes[i].votes) == Granted(c.nodes[i].votes) + {p})
  {
    ask, vote := Deliver(request.(dst := p)), Deliver(Vote(p, i, t));
    VoterVotes(c, i, p, t, request);
    c1 := Happen(c, ask);
    assert Campaigns(c1, i, t, request);
    VoteCounts(c1, i, p, t, request);
    c' := Happen(c1, vote);
  }

  lemma {:induction false} QuorumSize(c: Cluster, i: NodeId, n: Node)
    requires i in c.members && n.prs.Keys == c.members - {i}
    ensures Quorum(n) == |c.members| / 2 + 1
  {
    assert c.members == n.prs.Keys + {i};
  }

  lemma {:induction false} NotEnough(c: Cluster, i: NodeId, t: Term, request: Message, q: set<NodeId>)
    requires Campaigns(c, i, t, request) && q <= Granted(c.nodes[i].votes)
    ensures 2 * |q| <= |c.members|
  {
    SubsetSize(q, Granted(c.nodes[i].votes));
    QuorumSize(c, i, c.nodes[i]);
  }

  lemma {:induction false} VotesCome(c: Cluster, i: NodeId, t: Term, request: Message, q: set<NodeId>,
                                     rest: set<NodeId>)
    returns (es: seq<Event>, c': Cluster)
    requires Campaigns(c, i, t, request) && 2 * |q| > |c.members| && q <= Granted(c.nodes[i].votes) + rest
    requires forall p :: p in rest ==> WillVote(c, i, p, t, request)
    ensures Leads(c, es, c') && i in c'.nodes && Announced(c'.nodes[i], t)
    decreases rest
  {
    if q <= Granted(c.nodes[i].votes) { NotEnough(c, i, t, request, q); }
    var p :| p in rest;
    var ask, c1, vote, c2 := OneVote(c, i, p, t, request);
    es, c' := [], c2;
    if !Announced(c2.nodes[i], t) { es, c' := VotesCome(c2, i, t, request, q, rest - {p}); }
    LeadsFirst(c1, vote, c2, es, c');
    LeadsFirst(c, ask, c1, [vote] + es, c');
    es := [ask] + ([vote] + es);
  }

  /** The members, each under its name and with the others as peers. */
  ghost predicate Named(c: Cluster) {
    && c.nodes.Keys == c.members
    && forall i {:trigger c.nodes[i]} :: i in c.members ==> c.nodes[i].id == i && c.nodes[i].prs.Keys == c.members - {i}
  }

  function Timeout(i: NodeId): Message {
    Plain(MsgHup, i, i, 0)
  }

  /** The log is in order and the term of its end is known. */
  predicate Ready(l: Log) {
    Contiguous(l.entries) && l.committed <= LastIndex(l) && TermSync(l, LastIndex(l)).Some?
  }

  /** A node that times out and is not alone asks all its peers. */
  lemma {:induction false} Asks(n: Node, m: Message) returns (request: Message)
    requires m.kind == MsgHup && m.term <= n.term && n.role != Leader && Quorum(n) > 1 && Ready(n.log)
    ensures Step(n, m).Stepped? && Describes(request, n.log)
    ensures var n' := Step(n, m).node;
            && n' == BecomeCandidate(n).(msgs := n'.msgs) && request == VoteRequest(n', request.dst, request.logTerm)
            && forall p :: p in n.prs && p != n.id ==> request.(dst := p) in n'.msgs
  {
    var b, lastTerm := BecomeCandidate(n), TermSync(n.log, LastIndex(n.log)).value;
    request := VoteRequest(b, NONE, lastTerm);
    assert Step(n, m) == Campaign(n);
    forall p | p in n.prs && p != n.id ensures request.(dst := p) in Campaign(n).node.msgs {
      assert p in Peers(b) && request.(dst := p) == VoteRequest(b, p, lastTerm);
    }
  }

  lemma {:induction false} CampaignBegins(c: Cluster, i: NodeId) returns (request: Message)
    requires Named(c) && i in c.members && c.nodes[i].role != Leader && |c.members| > 1 && Ready(c.nodes[i].log)
    ensures var e := Local(i, Timeout(i));
            && CanHappen(c, e)
            && var c' := Happen(c, e);
               && Campaigns(c', i, c.nodes[i].term + 1, request) && c'.nodes == c.nodes[i := NodeAfter(c, e)]
               && c'.members == c.members && Describes(request, c.nodes[i].log)
               && forall p :: p in c.members && p != i ==> request.(dst := p) in c'.net
  {
    QuorumSize(c, i, c.nodes[i]);
    request := Asks(c.nodes[i], Timeout(i));
    Begun(c, i, NodeAfter(c, Local(i, Timeout(i))), request);
  }

  lemma {:induction false} Begun(c: Cluster, i: NodeId, n': Node, request: Message)
    requires Named(c) && i in c.members && |c.members| > 1 && Ready(c.nodes[i].log)
    requires n' == BecomeCandidate(c.nodes[i]).(msgs := n'.msgs)
    requires Describes(request, c.nodes[i].log) && request == VoteRequest(n', request.dst, request.logTerm)
    ensures Campaigns(Moved(c, i, n'), i, c.nodes[i].term + 1, request)
  {
    QuorumSize(c, i, n');
    assert Granted(n'.votes) == {i} && Rejected(n'.votes) == {};
  }

  lemma {:induction false} WonAlone(c: Cluster, i: NodeId) returns (es: seq<Event>, c': Cluster)
    requires Named(c) && i in c.members && |c.members| <= 1 && c.nodes[i].role != Leader && Ready(c.nodes[i].log)
    ensures Leads(c, es, c') && i in c'.nodes && Announced(c'.nodes[i], c.nodes[i].term + 1)
  {
    var e, n := Local(i, Timeout(i)), c.nodes[i];
    SubsetSize({i}, c.members);
    QuorumSize(c, i, n);
    LeadingWorks(BecomeCandidate(n));
    assert Step(n, Timeout(i)) == BecomeLeader(BecomeCandidate(n));
    c' := Happen(c, e);
    assert Leads(c', [], c');
    LeadsFirst(c, e, c', [], c');
    es := [e] + [];
  }

  lemma {:induction false} NotAheadVotes(c: Cluster, c1: Cluster, i: NodeId, p: NodeId, request: Message)
    requires Named(c) && i in c.members && p in c.members && p != i && p in c1.nodes && c1.nodes[p] == c.nodes[p]
    requires c.nodes[p].term <= c.nodes[i].term && NotAhead(c.nodes[p].log, c.nodes[i].log)
    requires Describes(request, c.nodes[i].log) && request.(dst := p) in c1.net
    ensures WillVote(c1, i, p, c.nodes[i].term + 1, request)
  {
  }

  /** An election can be won. Whenever a node that does not lead has a log in order, and there is a
      majority, itself among it, in which nobody is in a later term or has a log ahead of its own,
      events are possible that make it the leader of the next term, known to all its peers. */
  lemma {:induction false} ElectionCanBeWon(c: Cluster, i: NodeId, q: set<NodeId>) returns (es: seq<Event>, c': Cluster)
    requires Named(c) && i in q && q <= c.members && 2 * |q| > |c.members|
    requires c.nodes[i].role != Leader && Ready(c.nodes[i].log)
    requires forall p :: p in q ==> c.nodes[p].term <= c.nodes[i].term && NotAhead(c.nodes[p].log, c.nodes[i].log)
    ensures Leads(c, es, c') && i in c'.nodes && Announced(c'.nodes[i], c.nodes[i].term + 1)
  {
    if |c.members| <= 1 {
      es, c' := WonAlone(c, i);
    } else {
      var e, t := Local(i, Timeout(i)), c.nodes[i].term + 1;
      var request := CampaignBegins(c, i);
      var c1 := Happen(c, e);
      forall p | p in q - {i} ensures WillVote(c1, i, p, t, request) { NotAheadVotes(c, c1, i, p, request); }
      es, c' := VotesCome(c1, i, t, request, q, q - {i});
      LeadsFirst(c, e, c1, es, c');
      es := [e] + es;
    }
  }

  // ---- One vote ----

  /** Those who have voted for a candidate, and those who have refused, once `m` is counted. */
  function VotersAfter(n: Node, m: Message): set<NodeId> {
    if m.reject then Granted(n.votes) - {m.src} else Granted(n.votes) + {m.src}
  }

  function RefusersAfter(n: Node, m: Message): set<NodeId> {
    if m.reject then Rejected(n.votes) + {m.src} else Rejected(n.votes) - {m.src}
  }

  /** A candidate that is answered in its own term: it leads if and only if a quorum has now voted
      for it, gives up if and only if a quorum has refused, and goes on otherwise; the answer of
      every peer is counted once. */
  lemma {:induction false} AnswerDecides(n: Node, m: Message)
    requires n.role == Candidate && m.kind == MsgRequestVoteResponse && m.term == n.term && !Step(n, m).Panicked?
    ensures var n' := Step(n, m).node;
            && n'.term == n.term && (n'.role == Leader <==> |VotersAfter(n, m)| >= Quorum(n))
            && (n'.role == Follower <==> |VotersAfter(n, m)| < Quorum(n) <= |RefusersAfter(n, m)|)
  {
    CountedOnce(n, m);
    assert Step(n, m) == HandleRequestVoteResponse(n, m);
    AnswerCounts(n, m);
  }

  lemma {:induction false} AnswerCounts(n: Node, m: Message)
    requires n.role == Candidate && m.term == n.term && !HandleRequestVoteResponse(n, m).Panicked?
    ensures var n', votes := HandleRequestVoteResponse(n, m).node, n.votes[m.src := !m.reject];
            && n'.term == n.term && (n'.role == Leader <==> |Granted(votes)| >= Quorum(n))
            && (n'.role == Follower <==> |Granted(votes)| < Quorum(n) <= |Rejected(votes)|)
  {
    var v := n.(votes := n.votes[m.src := !m.reject]);
    if |Granted(v.votes)| >= Quorum(v) { BecomeLeaderEffect(v); }
  }

  lemma {:induction false} CountedOnce(n: Node, m: Message)
    ensures Granted(n.votes[m.src := !m.reject]) == VotersAfter(n, m)
    ensures Rejected(n.votes[m.src := !m.reject]) == RefusersAfter(n, m)
  {
  }

  /** A follower or candidate that is asked for its vote answers, and gives it if and only if the
      request is of a later term, or of its own term and it has not voted for anybody else there,
      and describes a log that ends at least where its own does. */
  lemma {:induction false} RequestDecides(n: Node, m: Message)
    requires n.role != Leader && m.kind == MsgRequestVote && m.src != NONE
    ensures Step(n, m).Stepped?
    ensures var n' := Step(n, m).node;
            var gives := && (m.term > n.term || (m.term == n.term && (n.vote == NONE || n.vote == m.src)))
                         && UpToDate(n.log, m);
            && Vote(n.id, m.src, n'.term).(reject := !gives) in n'.msgs
            && n'.term == (if m.term > n.term then m.term else n.term)
            && (gives ==> n'.vote == m.src) && (!gives && m.term <= n.term ==> n'.vote == n.vote)
            && (!gives && m.term > n.term ==> n'.vote == NONE)
  {
  }

  /** A message of a later term makes any node a follower of that term, and of its sender unless
      that only asks for a vote. */
  lemma {:induction false} LaterTermFollows(n: Node, m: Message)
    requires m.term > n.term && m.kind != MsgHup && !Step(n, m).Panicked?
    ensures var n' := Step(n, m).node;
            n'.role == Follower && n'.term == m.term && n'.lead == if m.kind == MsgRequestVote then NONE else m.src
  {
  }
}
