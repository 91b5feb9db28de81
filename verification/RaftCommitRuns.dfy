/** Where commit indexes come from: what a step does to them, and over runs of the cluster the
    majority behind every one of them. */
module RaftCommitRuns {
  import opened Options
  import opened RaftModel
  import opened RaftElection
  import opened RaftCommit
  import opened RaftReplication

  // ---- One step ----

  function Min(a: Index, b: Index): Index {
    if a < b then a else b
  }

  /** The node listens to the sender of an append or a heartbeat, and an append matches its log. */
  predicate Obeys(n: Node, m: Message) {
    && Carries(m) && (n.role == Candidate || m.term >= n.term) && (n.role == Leader ==> m.term > n.term)
    && (m.kind == MsgAppend ==> Matches(n.log, m))
  }

  /** Told a larger commit index, a node that obeys takes it over as far as its log reaches, and no
      further; otherwise its commit index stays. */
  ghost predicate TakesCommit(n: Node, m: Message, n': Node, obeys: bool) {
    n'.log.committed ==
    if obeys && m.commit > n.log.committed then Min(m.commit, LastIndex(n'.log)) else n.log.committed
  }

  lemma {:induction false} AppendCommits(n: Node, m: Message)
    requires !HandleAppendEntries(n, m).Panicked?
    ensures TakesCommit(n, m, HandleAppendEntries(n, m).node, m.term >= n.term && Matches(n.log, m))
  {
  }

  lemma {:induction false} HeartbeatCommits(n: Node, m: Message)
    ensures TakesCommit(n, m, HandleHeartbeat(n, m), m.term >= n.term)
  {
  }

  lemma {:induction false} FollowerCommits(n: Node, m: Message)
    requires Carries(m) && !Step(n, m).Panicked?
    ensures TakesCommit(n, m, Step(n, m).node, Obeys(n, m))
  {
    var c := Catch(n, m);
    var f := if c.role == Candidate then BecomeFollower(c, m.term, m.src) else c;
    if c.role != Leader {
      if m.kind == MsgAppend {
        AppendCommits(f, m);
      } else {
        HeartbeatCommits(f, m);
      }
    }
  }

  /** Candidates and leaders are in a term of their own. */
  predicate PositiveTerm(n: Node) {
    n.role != Follower ==> n.term > 0
  }

  /** A leader moves its commit index to an entry of its term that a quorum of the others has
      reached. */
  ghost predicate LeaderCommits(n: Node, n': Node) {
    && n'.role == Leader && n'.log.committed > n.log.committed
    && TermSync(n'.log, n'.log.committed) == Some(n'.term)
    && IsQuorumIndex(n'.prs, Quorum(n'), n'.log.committed)
  }

  /** The commit index after a step: as before, or not beyond the one in the message, or moved by
      a leader. */
  ghost predicate CommitStep(n: Node, m: Message, n': Node) {
    || n'.log.committed == n.log.committed
    || (Carries(m) && n'.log.committed <= m.commit)
    || LeaderCommits(n, n')
  }

  /** What a leader believes of a peer: nothing, what it believed before, or what the peer has just
      told it in the leader's own term. */
  predicate Believes(n: Node, m: Message, n': Node, p: NodeId)
    requires p in n'.prs
  {
    var c := n'.prs[p].matchIndex;
    || c == 0
    || (n.role == Leader && n.term == n'.term && p in n.prs && c == n.prs[p].matchIndex)
    || (m.kind == MsgAppendResponse && !m.reject && m.src == p && m.index == c && m.term == n'.term)
  }

  ghost predicate LeaderStep(n: Node, m: Message, n': Node) {
    && SameIdentity(n, n') && PositiveTerm(n') && CommitStep(n, m, n')
    && (n'.role == Leader ==> forall p {:trigger Believes(n, m, n', p)} :: p in n'.prs ==> Believes(n, m, n', p))
  }

  lemma {:induction false} LeadingStep(n: Node, m: Message)
    requires n.term > 0 && !BecomeLeader(n).Panicked?
    ensures LeaderStep(n, m, BecomeLeader(n).node)
  {
    BecomeLeaderEffect(n);
    var last := LastIndex(n.log);
    var log := Append(n.log, [Entry(Normal, n.term, last + 1, [])]).value;
    BcastAppendEffect(n.(role := Leader, lead := n.id, prs := map p | p in n.prs :: Progress(0, last + 1), log := log));
  }

  lemma {:induction false} CampaignStep(n: Node, m: Message)
    requires !Campaign(n).Panicked?
    ensures LeaderStep(n, m, Campaign(n).node)
  {
    var c := BecomeCandidate(n);
    if Quorum(c) == 1 {
      LeadingStep(c, m);
      Relay(n, c, m, BecomeLeader(c).node);
    }
  }

  /** Having changed no more than term, role and votes before makes no difference to a node that
      does not lead. */
  lemma {:induction false} Relay(n: Node, c: Node, m: Message, n': Node)
    requires LeaderStep(c, m, n') && c.log == n.log && SameIdentity(n, c) && c.role != Leader
    ensures LeaderStep(n, m, n')
  {
    forall p | n'.role == Leader && p in n'.prs ensures Believes(n, m, n', p) { assert Believes(c, m, n', p); }
  }

  lemma {:induction false} FollowerStep(n: Node, m: Message)
    requires n.role == Follower && m.term <= n.term && !StepFollower(n, m).Panicked?
    ensures LeaderStep(n, m, StepFollower(n, m).node)
  {
    match m.kind
    case MsgHup => CampaignStep(n, m);
    case MsgAppend => AppendCommits(n, m);
    case MsgHeartbeat => HeartbeatCommits(n, m);
    case _ =>
  }

  lemma {:induction false} CandidateStep(n: Node, m: Message)
    requires n.role == Candidate && PositiveTerm(n) && !StepCandidate(n, m).Panicked?
    ensures LeaderStep(n, m, StepCandidate(n, m).node)
  {
    match m.kind
    case MsgHup => CampaignStep(n, m);
    case MsgAppend => AppendCommits(BecomeFollower(n, m.term, m.src), m);
    case MsgHeartbeat => HeartbeatCommits(BecomeFollower(n, m.term, m.src), m);
    case MsgRequestVoteResponse =>
      var v := n.(votes := n.votes[m.src := !m.reject]);
      if m.term == n.term && |Granted(v.votes)| >= Quorum(v) {
        LeadingStep(v, m);
        Relay(n, v, m, BecomeLeader(v).node);
      }
    case _ =>
  }

  lemma {:induction false} ProposeStep(n: Node, m: Message)
    requires n.role == Leader && n.term > 0 && !Propose(n, m).Panicked?
    ensures LeaderStep(n, m, Propose(n, m).node)
  {
    var p := n.(log := Append(n.log, Proposed(n, m.entries)).value);
    CommitsIff(p, MaybeCommit(p).log.committed);
    BcastAppendEffect(MaybeCommit(p));
  }

  lemma {:induction false} AppendResponseStep(n: Node, m: Message)
    requires n.role == Leader && n.term > 0 && m.kind == MsgAppendResponse && m.term <= n.term
    requires !HandleAppendResponse(n, m).Panicked?
    ensures LeaderStep(n, m, HandleAppendResponse(n, m).node)
  {
    AppendResponseReplicates(n, m);
    if m.term == n.term && !m.reject {
      var f := if m.src in n.prs then n.(prs := n.prs[m.src := Progress(m.index, m.index + 1)]) else n;
      CommitsIff(f, MaybeCommit(f).log.committed);
    }
  }

  lemma {:induction false} LeadStep(n: Node, m: Message)
    requires n.role == Leader && PositiveTerm(n) && m.term <= n.term && !StepLeader(n, m).Panicked?
    ensures LeaderStep(n, m, StepLeader(n, m).node)
  {
    match m.kind
    case MsgPropose => ProposeStep(n, m);
    case MsgAppendResponse => AppendResponseStep(n, m);
    case _ =>
  }

  /** Everything a step can do to the commit index and to what a leader believes. */
  lemma {:induction false} StepCommits(n: Node, m: Message)
    requires PositiveTerm(n) && !Step(n, m).Panicked?
    ensures LeaderStep(n, m, Step(n, m).node)
  {
    var c := Catch(n, m);
    match c.role {
      case Follower =>
        FollowerStep(c, m);
        Relay(n, c, m, Step(n, m).node);
      case Candidate => CandidateStep(n, m);
      case Leader => LeadStep(n, m);
    }
  }

  // ---- Runs of the cluster ----

  /** At event `e` a leader moved its commit index to `c` or beyond. */
  ghost predicate CommittedAt(r: Run, e: nat, c: Index)
    requires Possible(r)
  {
    && e < |r.events| && Target(r.events[e]) in r.states[e].nodes && Target(r.events[e]) in r.states[e + 1].nodes
    && var n, n' := r.states[e].nodes[Target(r.events[e])], r.states[e + 1].nodes[Target(r.events[e])];
       LeaderCommits(n, n') && n'.log.committed >= c
  }

  /** Some node has started with a commit index of `c` or more, or a leader has moved there before
      state `j`. */
  ghost predicate Sourced(r: Run, j: nat, c: Index)
    requires Possible(r)
  {
    || (exists i :: i in r.states[0].nodes && c <= r.states[0].nodes[i].log.committed)
    || (exists e: nat :: e < j && CommittedAt(r, e, c))
  }

  /** At event `e` the sender of the answer `x` came to have a log up to `x.index`. */
  ghost predicate StoredAt(r: Run, e: nat, x: Message)
    requires Possible(r)
  {
    && e < |r.events| && Target(r.events[e]) == x.src && x.src in r.states[e + 1].nodes
    && LastIndex(r.states[e + 1].nodes[x.src].log) == x.index && r.states[e + 1].nodes[x.src].term == x.term
  }

  predicate IsAck(x: Message) {
    x.kind == MsgAppendResponse && !x.reject
  }

  /** The peer `p` has told in term `t` that its log goes up to `c`. */
  ghost predicate Told(net: set<Message>, p: NodeId, t: Term, c: Index) {
    exists x {:trigger x in net} :: x in net && IsAck(x) && x.src == p && x.term == t && x.index == c
  }

  /** What a leader believes of a peer, other than nothing, the peer has told it. */
  ghost predicate Informed(c: Cluster, i: NodeId)
    requires i in c.nodes
  {
    c.nodes[i].role == Leader ==>
      forall p {:trigger c.nodes[i].prs[p]} :: p in c.nodes[i].prs ==>
        c.nodes[i].prs[p].matchIndex == 0 || Told(c.net, p, c.nodes[i].term, c.nodes[i].prs[p].matchIndex)
  }

  ghost predicate NodeSound(r: Run, j: nat, i: NodeId)
    requires Possible(r) && j < |r.states| && i in r.states[j].nodes
  {
    var c := r.states[j];
    && PositiveTerm(c.nodes[i]) && c.nodes[i].id == i && i in c.members && c.nodes[i].prs.Keys == c.members - {i}
    && c.nodes[i].msgs <= c.net && Sourced(r, j, c.nodes[i].log.committed) && Informed(c, i)
  }

  ghost predicate NetSound(r: Run, j: nat, x: Message)
    requires Possible(r) && j < |r.states|
  {
    && (Carries(x) ==> Sourced(r, j, x.commit))
    && (IsAck(x) ==> exists e: nat :: e < j && StoredAt(r, e, x))
  }

  ghost predicate AllSound(r: Run, j: nat)
    requires Possible(r) && j < |r.states|
  {
    && (forall i {:trigger NodeSound(r, j, i)} :: i in r.states[j].nodes ==> NodeSound(r, j, i))
    && (forall x {:trigger NetSound(r, j, x)} :: x in r.states[j].net ==> NetSound(r, j, x))
  }

  lemma {:induction false} SourcedLater(r: Run, j: nat, k: nat, c: Index, c': Index)
    requires Possible(r) && Sourced(r, j, c) && j <= k && c' <= c
    ensures Sourced(r, k, c')
  {
    if i :| i in r.states[0].nodes && c <= r.states[0].nodes[i].log.committed {
    } else {
      var e: nat :| e < j && CommittedAt(r, e, c);
      assert CommittedAt(r, e, c');
    }
  }

  lemma {:induction false} FirstSound(r: Run)
    requires Possible(r)
    ensures AllSound(r, 0)
  {
    forall i | i in r.states[0].nodes ensures NodeSound(r, 0, i) {
      assert Sourced(r, 0, r.states[0].nodes[i].log.committed);
    }
  }

  /** The node that handles event `j`. */
  lemma {:induction false} HandlerMoves(r: Run, j: nat) returns (i: NodeId, n: Node, n': Node)
    requires Possible(r) && j < |r.events| && AllSound(r, j)
    ensures i == Target(r.events[j]) && i in r.states[j].nodes && n == r.states[j].nodes[i] && NodeSound(r, j, i)
    ensures r.states[j + 1].nodes == r.states[j].nodes[i := n'] && r.states[j + 1].members == r.states[j].members
    ensures r.states[j + 1].net == r.states[j].net + n'.msgs
    ensures LeaderStep(n, Input(r.events[j]), n') && Speaks(n, Input(r.events[j]), n')
    ensures r.events[j].Local? ==> !Carries(Input(r.events[j])) && Input(r.events[j]).kind != MsgAppendResponse
    ensures r.events[j].Deliver? ==> Input(r.events[j]) in r.states[j].net
  {
    var c, e := r.states[j], r.events[j];
    assert Follows(c, e, r.states[j + 1]);
    i, n, n' := Target(e), c.nodes[Target(e)], NodeAfter(c, e);
    assert NodeSound(r, j, i);
    StepCommits(n, Input(e));
    StepSpeaks(n, Input(e));
  }

  lemma {:induction false} CommitSourced(r: Run, j: nat)
    requires Possible(r) && j < |r.events| && AllSound(r, j)
    ensures var i := Target(r.events[j]);
            i in r.states[j + 1].nodes && Sourced(r, j + 1, r.states[j + 1].nodes[i].log.committed)
  {
    var i, n, n' := HandlerMoves(r, j);
    var m := Input(r.events[j]);
    if n'.log.committed == n.log.committed {
      SourcedLater(r, j, j + 1, n.log.committed, n'.log.committed);
    } else if Carries(m) && n'.log.committed <= m.commit {
      assert NetSound(r, j, m);
      SourcedLater(r, j, j + 1, m.commit, n'.log.committed);
    } else {
      assert CommittedAt(r, j, n'.log.committed);
    }
  }

  lemma {:induction false} ToldLater(net: set<Message>, more: set<Message>, p: NodeId, t: Term, c: Index)
    requires Told(net, p, t, c)
    ensures Told(net + more, p, t, c)
  {
    var x :| x in net && IsAck(x) && x.src == p && x.term == t && x.index == c;
    assert x in net + more;
  }

  lemma {:induction false} InformedLater(c: Cluster, c': Cluster, i: NodeId, more: set<Message>)
    requires i in c.nodes && i in c'.nodes && c'.nodes[i] == c.nodes[i] && c'.net == c.net + more && Informed(c, i)
    ensures Informed(c', i)
  {
    var n := c.nodes[i];
    forall p | n.role == Leader && p in n.prs && n.prs[p].matchIndex != 0
      ensures Told(c'.net, p, n.term, n.prs[p].matchIndex)
    {
      ToldLater(c.net, more, p, n.term, n.prs[p].matchIndex);
    }
  }

  lemma {:induction false} HandlerInformed(r: Run, j: nat)
    requires Possible(r) && j < |r.events| && AllSound(r, j)
    ensures Target(r.events[j]) in r.states[j + 1].nodes && Informed(r.states[j + 1], Target(r.events[j]))
  {
    var i, n, n' := HandlerMoves(r, j);
    var m, c, c' := Input(r.events[j]), r.states[j], r.states[j + 1];
    forall p | n'.role == Leader && p in n'.prs && n'.prs[p].matchIndex != 0
      ensures Told(c'.net, p, n'.term, n'.prs[p].matchIndex)
    {
      assert Believes(n, m, n', p);
      if n.role == Leader && n.term == n'.term && p in n.prs && n'.prs[p].matchIndex == n.prs[p].matchIndex {
        ToldLater(c.net, n'.msgs, p, n.term, n.prs[p].matchIndex);
      } else {
        assert m in c'.net;
      }
    }
  }

  lemma {:induction false} NodeSoundNext(r: Run, j: nat, k: NodeId)
    requires Possible(r) && j < |r.events| && AllSound(r, j) && k in r.states[j + 1].nodes
    ensures NodeSound(r, j + 1, k)
  {
    var i, n, n' := HandlerMoves(r, j);
    if k == i {
      CommitSourced(r, j);
      HandlerInformed(r, j);
    } else {
      assert NodeSound(r, j, k);
      SourcedLater(r, j, j + 1, r.states[j].nodes[k].log.committed, r.states[j].nodes[k].log.committed);
      InformedLater(r.states[j], r.states[j + 1], k, n'.msgs);
    }
  }

  lemma {:induction false} NetSoundNext(r: Run, j: nat, x: Message)
    requires Possible(r) && j < |r.events| && AllSound(r, j) && x in r.states[j + 1].net
    ensures NetSound(r, j + 1, x)
  {
    var i, n, n' := HandlerMoves(r, j);
    if x in r.states[j].net {
      assert NetSound(r, j, x);
      if Carries(x) { SourcedLater(r, j, j + 1, x.commit, x.commit); }
    } else {
      CommitSourced(r, j);
      if IsAck(x) { assert StoredAt(r, j, x); }
    }
  }

  lemma {:induction false} RunSound(r: Run, j: nat)
    requires Possible(r) && j < |r.states|
    ensures AllSound(r, j)
  {
    if j == 0 {
      FirstSound(r);
    } else {
      RunSound(r, j - 1);
      forall i | i in r.states[j].nodes ensures NodeSound(r, j, i) { NodeSoundNext(r, j - 1, i); }
      forall x | x in r.states[j].net ensures NetSound(r, j, x) { NetSoundNext(r, j - 1, x); }
    }
  }

  /** Over every run of the cluster, guarded or not: every commit index at a node, and every one
      on the network, is at most one with which some node has started or one to which a leader has
      moved before. */
  lemma {:induction false} CommitHasSource(r: Run, j: nat, i: NodeId, x: Message)
    requires Possible(r) && j < |r.states|
    ensures i in r.states[j].nodes ==> Sourced(r, j, r.states[j].nodes[i].log.committed)
    ensures x in r.states[j].net && Carries(x) ==> Sourced(r, j, x.commit)
  {
    RunSound(r, j);
    if i in r.states[j].nodes { assert NodeSound(r, j, i); }
    if x in r.states[j].net { assert NetSound(r, j, x); }
  }

  // ---- The majority behind a commit index ----

  /** At some state up to `j` the log of `p` has gone up to `c`. */
  ghost predicate HasReached(r: Run, j: nat, p: NodeId, c: Index)
    requires Possible(r)
  {
    exists k: nat {:trigger r.states[k]} ::
      k <= j && k < |r.states| && p in r.states[k].nodes && LastIndex(r.states[k].nodes[p].log) >= c
  }

  /** `q` is a majority of the members, and by state `j` the log of each of them has gone up to `c`. */
  ghost predicate Stored(r: Run, j: nat, q: set<NodeId>, c: Index)
    requires Possible(r) && j < |r.states|
  {
    && q <= r.states[j].members && 2 * |q| > |r.states[j].members|
    && forall p {:trigger HasReached(r, j, p, c)} :: p in q ==> HasReached(r, j, p, c)
  }

  lemma {:induction false} BelievedReached(r: Run, j: nat, i: NodeId, p: NodeId)
    requires Possible(r) && j < |r.states| && i in r.states[j].nodes && r.states[j].nodes[i].role == Leader
    requires p in r.states[j].nodes[i].prs && r.states[j].nodes[i].prs[p].matchIndex > 0
    ensures HasReached(r, j, p, r.states[j].nodes[i].prs[p].matchIndex)
  {
    RunSound(r, j);
    assert NodeSound(r, j, i);
    var n := r.states[j].nodes[i];
    var x :| x in r.states[j].net && IsAck(x) && x.src == p && x.term == n.term && x.index == n.prs[p].matchIndex;
    assert NetSound(r, j, x);
    var e: nat :| e < j && StoredAt(r, e, x);
    assert LastIndex(r.states[e + 1].nodes[p].log) >= n.prs[p].matchIndex;
  }

  lemma {:induction false} ReachedLater(r: Run, j: nat, k: nat, p: NodeId, c: Index, c': Index)
    requires Possible(r) && j <= k && c' <= c && HasReached(r, j, p, c)
    ensures HasReached(r, k, p, c')
  {
    var s: nat :| s <= j && s < |r.states| && p in r.states[s].nodes && LastIndex(r.states[s].nodes[p].log) >= c;
    assert LastIndex(r.states[s].nodes[p].log) >= c';
  }

  lemma {:induction false} MembersFixed(r: Run, j: nat)
    requires Possible(r) && j < |r.states|
    ensures r.states[j].members == r.states[0].members
  {
    if j > 0 {
      MembersFixed(r, j - 1);
      assert Follows(r.states[j - 1], r.events[j - 1], r.states[j]);
    }
  }

  lemma {:induction false} CommittedStored(r: Run, e: nat, c: Index, j: nat) returns (q: set<NodeId>)
    requires Possible(r) && e < j < |r.states| && CommittedAt(r, e, c) && c > 0
    ensures Stored(r, j, q, c)
  {
    var l := Target(r.events[e]);
    var n' := r.states[e + 1].nodes[l];
    var c' := n'.log.committed;
    RunSound(r, e + 1);
    assert NodeSound(r, e + 1, l);
    q := Reached(n'.prs, c');
    MembersFixed(r, e + 1);
    MembersFixed(r, j);
    MajoritySize(r.states[e + 1], l, n');
    forall p | p in q ensures HasReached(r, j, p, c) {
      BelievedReached(r, e + 1, l, p);
      ReachedLater(r, e + 1, j, p, n'.prs[p].matchIndex, c);
    }
  }

  /** What any node of the cluster holds committed beyond all initial commit indexes has been in
      the logs of a majority. This is so over every run, with loss, delay, reordering and
      duplication, and for followers as well as leaders. */
  lemma {:induction false} CommittedByMajority(r: Run, j: nat, i: NodeId)
    requires Possible(r) && j < |r.states| && i in r.states[j].nodes
    requires forall k :: k in r.states[0].nodes ==>
               r.states[0].nodes[k].log.committed < r.states[j].nodes[i].log.committed
    ensures exists q :: Stored(r, j, q, r.states[j].nodes[i].log.committed)
  {
    var c := r.states[j].nodes[i].log.committed;
    RunSound(r, j);
    assert NodeSound(r, j, i);
    var e: nat :| e < j && CommittedAt(r, e, c);
    MembersFixed(r, j);
    assert i in r.states[0].nodes;
    var q := CommittedStored(r, e, c, j);
  }
}
