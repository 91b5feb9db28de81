/** Elections over a network that may drop, delay, reorder and duplicate messages. */
module RaftElection {
  import opened Options
  import opened FiniteSets
  import opened RaftModel

  /** All nodes, every message sent so far, and every leadership there ever was as a
      pair of term and node. A message stays deliverable for ever, or is never
      delivered: that covers loss, delay, reordering and duplication. */
  datatype Cluster = Cluster(members: set<NodeId>, nodes: map<NodeId, Node>, net: set<Message>,
                             leaders: set<(Term, NodeId)>)

  datatype Event =
    | Deliver(m: Message)             // a message reaches its destination
    | Local(id: NodeId, input: Message)  // a timeout, a heartbeat tick or a proposal at a node

  function Target(e: Event): NodeId {
    match e
    case Deliver(m) => m.dst
    case Local(id, _) => id
  }

  function Input(e: Event): Message {
    match e
    case Deliver(m) => m
    case Local(_, m) => m
  }

  /** A candidate that is handed an append or heartbeat of an earlier term. */
  predicate StaleForCandidate(n: Node, m: Message) {
    n.role == Candidate && (m.kind == MsgAppend || m.kind == MsgHeartbeat) && m.term < n.term
  }

  predicate IsLocal(m: Message) {
    m.kind == MsgHup || m.kind == MsgBeat || m.kind == MsgPropose
  }

  /** The node after the event; a node that panics takes no further step. */
  ghost predicate CanHappen(c: Cluster, e: Event) {
    && Target(e) in c.nodes && !Step(c.nodes[Target(e)], Input(e)).Panicked?
    && match e
       case Deliver(m) => m in c.net
       case Local(_, m) => IsLocal(m) && m.term == 0
  }

  ghost function NodeAfter(c: Cluster, e: Event): Node
    requires CanHappen(c, e)
  {
    Step(c.nodes[Target(e)], Input(e)).node
  }

  ghost function Happen(c: Cluster, e: Event): Cluster
    requires CanHappen(c, e)
  {
    var n := NodeAfter(c, e);
    c.(nodes := c.nodes[Target(e) := n], net := c.net + n.msgs,
    leaders := if n.role == Leader then c.leaders + {(n.term, n.id)} else c.leaders)
  }

  /** Any terms and votes may have been restored from disk; nobody leads and nothing
      is under way. */
  ghost predicate Initial(c: Cluster) {
    && NONE !in c.members && c.net == {} && c.leaders == {} && c.nodes.Keys == c.members
    && forall i :: i in c.members ==>
         var n := c.nodes[i];
         n.id == i && n.prs.Keys == c.members - {i} && n.role == Follower && n.votes == map[] && n.msgs == {}
  }

  // ---- What one step does to term, vote and votes ----

  /** `m` says that `src` voted for `dst` in `term`. */
  predicate IsGrant(m: Message) {
    m.kind == MsgRequestVoteResponse && !m.reject
  }

  predicate IsVoting(m: Message) {
    m.kind == MsgRequestVote || m.kind == MsgRequestVoteResponse
  }

  function Vote(voter: NodeId, candidate: NodeId, term: Term): Message {
    Plain(MsgRequestVoteResponse, candidate, voter, term)
  }

  predicate SameIdentity(n: Node, n': Node) {
    n'.id == n.id && n'.prs.Keys == n.prs.Keys
  }

  /** Candidates and leaders have voted for themselves. */
  predicate SelfVoted(n: Node) {
    n.id != NONE && (n.role != Follower ==> n.vote == n.id && n.id in n.votes && n.votes[n.id])
  }

  /** The log that a vote request describes, by the term and the index of its last entry,
      ends at least where `l` ends. */
  predicate UpToDate(l: Log, m: Message) {
    var last := LastIndex(l);
    m.logTerm > TermOrZero(l, last) || (m.logTerm == TermOrZero(l, last) && m.index >= last)
  }

  /** The vote request describes the end of the log `l`. */
  predicate Describes(m: Message, l: Log) {
    m.index == LastIndex(l) && TermSync(l, m.index) == Some(m.logTerm)
  }

  /** Only nodes themselves send vote requests and votes. A request is sent by a node that
      times out, and describes its log. A vote answers the request just handled, names whom
      the node has voted for, and goes to a candidate whose log is up to date. */
  ghost predicate NewMessage(n: Node, m: Message, n': Node, x: Message) {
    && (x.kind == MsgRequestVote ==>
          x.src == n.id && x.dst in n.prs.Keys - {n.id} && m.kind == MsgHup && x.term == n'.term && Describes(x, n.log))
    && (x.kind == MsgRequestVoteResponse ==> m.kind == MsgRequestVote && x.src == n.id && x.dst == m.src)
    && (IsGrant(x) ==>
          x == Vote(n.id, m.src, n'.term) && n'.vote == m.src && n'.role == Follower && m.term == n'.term
          && UpToDate(n.log, m))
  }

  /** A step keeps the messages queued before it and adds its own. */
  ghost predicate MessagesOf(n: Node, m: Message, n': Node) {
    && n.msgs <= n'.msgs
    && forall x {:trigger NewMessage(n, m, n', x)} :: x in n'.msgs && x !in n.msgs ==> NewMessage(n, m, n', x)
  }

  /** The only ways in which a step moves term, vote, role and votes. */
  ghost predicate ElectionStep(n: Node, m: Message, n': Node) {
    || (n'.term == n.term && n'.vote == n.vote && n'.role == n.role && n'.votes == n.votes)
    || (&& n.role == Candidate && m.kind == MsgRequestVoteResponse && m.term == n.term == n'.term && n'.vote == n.vote
        && n'.votes == n.votes[m.src := !m.reject]
        && (n'.role == Candidate || (n'.role == Leader && |Granted(n'.votes)| >= Quorum(n))))
    || (n.role == Candidate && n'.term == n.term && n'.role == Follower && n'.vote == NONE)
    || (&& n.role == Follower && n'.role == Follower && n'.term == n.term && m.kind == MsgRequestVote
        && (n.vote == NONE || n.vote == m.src) && n'.vote == m.src && n'.votes == n.votes)
    || (n'.term > n.term && n'.role == Follower && (n'.vote == NONE || n'.vote == m.src))
    || (&& n'.term > n.term && n'.vote == n.id && n'.votes == map[n.id := true]
        && (n'.role == Candidate || (n'.role == Leader && Quorum(n) == 1)))
  }

  lemma {:induction false} BcastAppendEffect(n: Node)
    requires BcastAppend(n).Stepped?
    ensures var n' := BcastAppend(n).node;
            && n' == n.(msgs := n'.msgs) && n.msgs <= n'.msgs
            && forall x :: x in n'.msgs ==> x in n.msgs || (x.kind == MsgAppend && x.src == n.id && x.term == n.term)
  {
  }

  lemma {:induction false} BecomeLeaderEffect(n: Node)
    requires !BecomeLeader(n).Panicked?
    ensures BecomeLeader(n).Stepped?
    ensures var n' := BecomeLeader(n).node;
            && SameIdentity(n, n') && n'.term == n.term && n'.vote == n.vote && n'.votes == n.votes && n'.role == Leader
            && n.msgs <= n'.msgs
            && forall x :: x in n'.msgs ==> x in n.msgs || (x.kind == MsgAppend && x.src == n.id && x.term == n.term)
  {
    var last := LastIndex(n.log);
    var reset := map p | p in n.prs :: Progress(0, last + 1);
    assert reset.Keys == n.prs.Keys;
    var log := Append(n.log, [Entry(Normal, n.term, last + 1, [])]).value;
    BcastAppendEffect(n.(role := Leader, lead := n.id, prs := reset, log := log));
  }

  ghost predicate Effect(n: Node, m: Message, n': Node) {
    SameIdentity(n, n') && ElectionStep(n, m, n') && MessagesOf(n, m, n')
  }

  lemma {:induction false} CampaignEffect(n: Node, m: Message)
    requires m.kind == MsgHup && !Campaign(n).Panicked?
    ensures Effect(n, m, Campaign(n).node)
  {
    var c := BecomeCandidate(n);
    if Quorum(c) == 1 { BecomeLeaderEffect(c); }
  }

  lemma {:induction false} RequestVoteEffect(n: Node, m: Message)
    requires m.kind == MsgRequestVote && m.term <= n.term && SelfVoted(n) && m.src != n.id
    ensures Effect(n, m, HandleRequestVote(n, m))
  {
  }

  lemma {:induction false} VoteResponseEffect(n: Node, m: Message)
    requires m.kind == MsgRequestVoteResponse && n.role == Candidate && !HandleRequestVoteResponse(n, m).Panicked?
    ensures Effect(n, m, HandleRequestVoteResponse(n, m).node)
  {
    if m.term == n.term {
      var v := n.(votes := n.votes[m.src := !m.reject]);
      if |Granted(v.votes)| >= Quorum(v) { BecomeLeaderEffect(v); }
    }
  }

  lemma {:induction false} AppendEntriesEffect(n: Node, m: Message)
    requires m.kind == MsgAppend && m.term <= n.term && !HandleAppendEntries(n, m).Panicked?
    ensures Effect(n, m, HandleAppendEntries(n, m).node)
    ensures HandleAppendEntries(n, m).node.term == n.term && HandleAppendEntries(n, m).node.vote == n.vote
  {
  }

  lemma {:induction false} HeartbeatEffect(n: Node, m: Message)
    requires m.kind == MsgHeartbeat && m.term <= n.term
    ensures Effect(n, m, HandleHeartbeat(n, m))
    ensures HandleHeartbeat(n, m).term == n.term && HandleHeartbeat(n, m).vote == n.vote
  {
  }

  lemma {:induction false} FollowerEffect(n: Node, m: Message)
    requires n.role == Follower && m.term <= n.term && SelfVoted(n) && !StepFollower(n, m).Panicked?
    requires m.kind == MsgRequestVote ==> m.src != n.id
    ensures Effect(n, m, StepFollower(n, m).node)
  {
    match m.kind
    case MsgHup => CampaignEffect(n, m);
    case MsgAppend => AppendEntriesEffect(n, m);
    case MsgHeartbeat => HeartbeatEffect(n, m);
    case MsgRequestVote => RequestVoteEffect(n, m);
    case _ =>
  }

  lemma {:induction false} CandidateEffect(n: Node, m: Message)
    requires n.role == Candidate && m.term <= n.term && SelfVoted(n) && !StepCandidate(n, m).Panicked?
    requires m.kind == MsgRequestVote ==> m.src != n.id
    requires !StaleForCandidate(n, m)
    ensures Effect(n, m, StepCandidate(n, m).node)
  {
    match m.kind
    case MsgHup => CampaignEffect(n, m);
    case MsgAppend => AppendEntriesEffect(BecomeFollower(n, m.term, m.src), m);
    case MsgHeartbeat => HeartbeatEffect(BecomeFollower(n, m.term, m.src), m);
    case MsgRequestVote => RequestVoteEffect(n, m);
    case MsgRequestVoteResponse => VoteResponseEffect(n, m);
    case _ =>
  }

  /** `n'` differs from `n` only in its log, its progress and appends it has sent. */
  ghost predicate Replicates(n: Node, n': Node) {
    && SameIdentity(n, n') && n' == n.(prs := n'.prs, log := n'.log, msgs := n'.msgs) && n.msgs <= n'.msgs
    && forall x :: x in n'.msgs ==> x in n.msgs || x.kind == MsgAppend || x.kind == MsgHeartbeat
  }

  lemma {:induction false} ProposeReplicates(n: Node, m: Message)
    requires !Propose(n, m).Panicked?
    ensures Replicates(n, Propose(n, m).node)
  {
    var log := Append(n.log, Proposed(n, m.entries)).value;
    BcastAppendEffect(MaybeCommit(n.(log := log)));
  }

  lemma {:induction false} AppendResponseReplicates(n: Node, m: Message)
    requires !HandleAppendResponse(n, m).Panicked?
    ensures Replicates(n, HandleAppendResponse(n, m).node)
  {
    if m.term >= n.term && m.reject && m.src in n.prs {
      var p := DecreaseNext(n.prs[m.src], m.index).value;
      assert n.prs[m.src := p].Keys == n.prs.Keys;
    } else if m.term >= n.term && m.src in n.prs {
      assert n.prs[m.src := Progress(m.index, m.index + 1)].Keys == n.prs.Keys;
    }
  }

  lemma {:induction false} LeaderEffect(n: Node, m: Message)
    requires n.role == Leader && m.term <= n.term && SelfVoted(n) && !StepLeader(n, m).Panicked?
    requires m.kind == MsgRequestVote ==> m.src != n.id
    ensures Effect(n, m, StepLeader(n, m).node)
  {
    match m.kind
    case MsgPropose => ProposeReplicates(n, m);
    case MsgAppendResponse => AppendResponseReplicates(n, m);
    case MsgRequestVote => RequestVoteEffect(n, m);
    case _ => assert Replicates(n, StepLeader(n, m).node);
  }

  /** Catching up with a larger term first leaves the effect what it was. */
  lemma {:induction false} CaughtUp(n: Node, m: Message, n': Node)
    requires m.term > n.term && Effect(Catch(n, m), m, n') && SelfVoted(n)
    ensures Effect(n, m, n')
  {
    forall x | x in n'.msgs && x !in n.msgs ensures NewMessage(n, m, n', x) {
      assert NewMessage(Catch(n, m), m, n', x);
    }
  }

  /** Everything a step can do to an election. */
  lemma {:induction false} StepEffect(n: Node, m: Message)
    requires SelfVoted(n) && (m.kind == MsgRequestVote ==> m.src != n.id)
    requires !StaleForCandidate(n, m) && !Step(n, m).Panicked?
    ensures Effect(n, m, Step(n, m).node)
  {
    if m.term > n.term {
      FollowerEffect(Catch(n, m), m);
      CaughtUp(n, m, Step(n, m).node);
    } else {
      match n.role
      case Follower => FollowerEffect(n, m);
      case Candidate => CandidateEffect(n, m);
      case Leader => LeaderEffect(n, m);
    }
  }

  /** A step lowers the term exactly when a candidate is handed an append or a
      heartbeat of an earlier term. */
  lemma {:induction false} TermFallsIff(n: Node, m: Message)
    requires !Step(n, m).Panicked?
    ensures Step(n, m).node.term < n.term <==> StaleForCandidate(n, m)
  {
    var c := Catch(n, m);
    match c.role {
      case Follower => if m.kind == MsgHup { CampaignEffect(c, m); }
      case Candidate =>
        if m.kind == MsgHup { CampaignEffect(c, m); }
        if m.kind == MsgRequestVoteResponse { VoteResponseEffect(c, m); }
      case Leader =>
        if m.kind == MsgPropose { ProposeReplicates(c, m); }
        if m.kind == MsgAppendResponse { AppendResponseReplicates(c, m); }
    }
  }

  // ---- The invariant ----

  ghost predicate WellFormed(c: Cluster) {
    && NONE !in c.members && c.nodes.Keys == c.members
    && (forall i {:trigger c.nodes[i]} :: i in c.members ==>
          var n := c.nodes[i];
          && n.id == i && n.prs.Keys == c.members - {i} && SelfVoted(n) && n.msgs <= c.net
          && (n.role == Leader ==> (n.term, i) in c.leaders))
  }

  /** Vote requests and answers come from members and never go to their sender. */
  ghost predicate Addressed(c: Cluster) {
    forall m {:trigger m in c.net} :: m in c.net && IsVoting(m) ==> m.src in c.members && m.src != m.dst
  }

  /** A vote was cast by a member for another one, in a term it had reached; while it
      is still in that term it is a follower bound by the vote. */
  ghost predicate VoteSound(c: Cluster, m: Message)
    requires c.nodes.Keys == c.members
  {
    && m.src in c.members && m.src != m.dst && m == Vote(m.src, m.dst, m.term) && m.term <= c.nodes[m.src].term
    && (m.term == c.nodes[m.src].term ==>
        c.nodes[m.src].role == Follower && c.nodes[m.src].vote == m.dst && m.dst != NONE)
  }

  ghost predicate VotesSound(c: Cluster)
    requires c.nodes.Keys == c.members
  {
    forall m {:trigger VoteSound(c, m)} :: m in c.net && IsGrant(m) ==> VoteSound(c, m)
  }

  /** Nobody votes for two candidates in one term. */
  ghost predicate VotesAgree(c: Cluster) {
    forall v, t, d, d' {:trigger Vote(v, d, t) in c.net, Vote(v, d', t) in c.net} ::
      Vote(v, d, t) in c.net && Vote(v, d', t) in c.net ==> d == d'
  }

  /** Every vote a candidate or leader has counted, other than its own, was sent. */
  ghost predicate CountedSent(c: Cluster)
    requires c.nodes.Keys == c.members
  {
    forall i, p {:trigger c.nodes[i], Vote(p, i, c.nodes[i].term)} ::
      i in c.members && c.nodes[i].role != Follower && p in Granted(c.nodes[i].votes) && p != i
      ==> Vote(p, i, c.nodes[i].term) in c.net
  }

  /** A majority that made `l` the leader of `t`. */
  ghost predicate Electors(c: Cluster, l: NodeId, t: Term, q: set<NodeId>) {
    && q <= c.members && l in q && 2 * |q| > |c.members|
    && forall p {:trigger Vote(p, l, t)} :: p in q && p != l ==> Vote(p, l, t) in c.net
  }

  ghost predicate Elected(c: Cluster, l: NodeId, t: Term)
    requires c.nodes.Keys == c.members
  {
    && l in c.members
    && (c.nodes[l].term > t || (c.nodes[l].term == t && c.nodes[l].role == Leader))
    && (forall d {:trigger Vote(l, d, t)} :: Vote(l, d, t) !in c.net)
    && exists q :: Electors(c, l, t, q)
  }

  ghost predicate AllElected(c: Cluster)
    requires c.nodes.Keys == c.members
  {
    forall t, l {:trigger Elected(c, l, t)} :: (t, l) in c.leaders ==> Elected(c, l, t)
  }

  ghost predicate Invariant(c: Cluster) {
    WellFormed(c) && Addressed(c) && VotesSound(c) && VotesAgree(c) && CountedSent(c) && AllElected(c)
  }

  // ---- Safety of a cluster that keeps the invariant ----

  lemma {:induction false} DisjointSize<T>(a: set<T>, b: set<T>, m: set<T>)
    requires a <= m && b <= m && a !! b
    ensures |a| + |b| <= |m|
  {
    assert |a + b| == |a| + |b|;
    SubsetSize(a + b, m);
  }

  ghost predicate OneLeaderPerTerm(c: Cluster) {
    forall t, l, l' {:trigger (t, l) in c.leaders, (t, l') in c.leaders} ::
      (t, l) in c.leaders && (t, l') in c.leaders ==> l == l'
  }

  lemma {:induction false} SameLeader(c: Cluster, t: Term, l: NodeId, l': NodeId)
    requires Invariant(c) && (t, l) in c.leaders && (t, l') in c.leaders
    ensures l == l'
  {
    assert Elected(c, l, t) && Elected(c, l', t);
    var q :| Electors(c, l, t, q);
    var q' :| Electors(c, l', t, q');
    if q !! q' { DisjointSize(q, q', c.members); }
    var p :| p in q && p in q';
    assert (p != l ==> Vote(p, l, t) in c.net) && (p != l' ==> Vote(p, l', t) in c.net);
  }

  // ---- Every event keeps the invariant ----

  /** Node `i` handles `m` and becomes `n'`. */
  ghost predicate Moves(c: Cluster, i: NodeId, m: Message, n': Node) {
    Invariant(c) && i in c.members && ((m in c.net && m.dst == i) || IsLocal(m)) && Effect(c.nodes[i], m, n')
  }

  ghost function Moved(c: Cluster, i: NodeId, n': Node): Cluster {
    c.(nodes := c.nodes[i := n'], net := c.net + n'.msgs,
    leaders := if n'.role == Leader then c.leaders + {(n'.term, n'.id)} else c.leaders)
  }

  /** What is new on the network after the move. */
  lemma {:induction false} Sent(c: Cluster, i: NodeId, m: Message, n': Node, x: Message)
    requires Moves(c, i, m, n') && x in Moved(c, i, n').net && x !in c.net
    ensures NewMessage(c.nodes[i], m, n', x)
  {
  }

  lemma {:induction false} WellFormedKept(c: Cluster, i: NodeId, m: Message, n': Node)
    requires Moves(c, i, m, n')
    ensures WellFormed(Moved(c, i, n'))
  {
    assert SelfVoted(c.nodes[i]) && (IsVoting(m) ==> m.src != i);
    assert n'.id == i && n'.prs.Keys == c.members - {i} && SelfVoted(n');
  }

  lemma {:induction false} AddressedKept(c: Cluster, i: NodeId, m: Message, n': Node)
    requires Moves(c, i, m, n')
    ensures Addressed(Moved(c, i, n'))
  {
    forall x | x in Moved(c, i, n').net && IsVoting(x) ensures x.src in c.members && x.src != x.dst {
      if x !in c.net { Sent(c, i, m, n', x); }
    }
  }

  lemma {:induction false} VotesSoundKept(c: Cluster, i: NodeId, m: Message, n': Node)
    requires Moves(c, i, m, n')
    ensures VotesSound(Moved(c, i, n'))
  {
    var c' := Moved(c, i, n');
    forall x | x in c'.net && IsGrant(x) ensures VoteSound(c', x) {
      if x in c.net {
        assert VoteSound(c, x);
      } else {
        Sent(c, i, m, n', x);
      }
    }
  }

  lemma {:induction false} VotesAgreeKept(c: Cluster, i: NodeId, m: Message, n': Node)
    requires Moves(c, i, m, n')
    ensures VotesAgree(Moved(c, i, n'))
  {
    var c' := Moved(c, i, n');
    VotesSoundKept(c, i, m, n');
    forall v, t, d, d' | Vote(v, d, t) in c'.net && Vote(v, d', t) in c'.net ensures d == d' {
      var x, x' := Vote(v, d, t), Vote(v, d', t);
      assert VoteSound(c', x) && VoteSound(c', x');
      if x !in c.net { Sent(c, i, m, n', x); }
      if x' !in c.net { Sent(c, i, m, n', x'); }
    }
  }

  lemma {:induction false} CountedVoteSent(c: Cluster, i: NodeId, m: Message, n': Node, p: NodeId)
    requires Moves(c, i, m, n') && n'.role != Follower && p in Granted(n'.votes) && p != i
    ensures Vote(p, i, n'.term) in c.net
  {
    var n := c.nodes[i];
    if p in Granted(n.votes) && n'.term == n.term {
      assert Vote(p, i, n.term) in c.net;
    } else {
      assert VoteSound(c, m);
    }
  }

  lemma {:induction false} CountedSentKept(c: Cluster, i: NodeId, m: Message, n': Node)
    requires Moves(c, i, m, n')
    ensures CountedSent(Moved(c, i, n'))
  {
    var c' := Moved(c, i, n');
    forall p | n'.role != Follower && p in Granted(n'.votes) && p != i ensures Vote(p, i, n'.term) in c'.net {
      CountedVoteSent(c, i, m, n', p);
    }
    forall j, p | j in c.members && c'.nodes[j].role != Follower && p in Granted(c'.nodes[j].votes) && p != j
      ensures Vote(p, j, c'.nodes[j].term) in c'.net
    {
      if j != i { assert Vote(p, j, c.nodes[j].term) in c.net; }
    }
  }

  lemma {:induction false} EnoughVotes(n: Node, m: Message, n': Node)
    requires ElectionStep(n, m, n') && n'.role == Leader && (n.role != Leader || n'.term != n.term)
    ensures |Granted(n'.votes)| >= Quorum(n)
  {
    if n'.votes == map[n.id := true] { assert Granted(n'.votes) == {n.id}; }
  }

  lemma {:induction false} MajoritySize(c: Cluster, i: NodeId, n: Node)
    requires i in c.members && n.prs.Keys == c.members - {i}
    ensures 2 * Quorum(n) > |c.members|
  {
    assert c.members == n.prs.Keys + {i};
  }

  /** The votes counted by a node that has just become leader are a majority. */
  lemma {:induction false} NewElectors(c: Cluster, i: NodeId, m: Message, n': Node)
    requires Moves(c, i, m, n') && n'.role == Leader && (n'.term, i) !in c.leaders
    ensures Electors(Moved(c, i, n'), i, n'.term, Granted(n'.votes))
  {
    var n := c.nodes[i];
    var q := Granted(n'.votes);
    forall p | p in q && p != i ensures Vote(p, i, n'.term) in c.net && p in c.members {
      CountedVoteSent(c, i, m, n', p);
      assert VoteSound(c, Vote(p, i, n'.term));
    }
    WellFormedKept(c, i, m, n');
    assert i in q && q <= c.members;
    EnoughVotes(n, m, n');
    MajoritySize(c, i, n);
  }

  lemma {:induction false} NewLeaderElected(c: Cluster, i: NodeId, m: Message, n': Node)
    requires Moves(c, i, m, n') && n'.role == Leader && (n'.term, i) !in c.leaders
    ensures Elected(Moved(c, i, n'), i, n'.term)
  {
    var c' := Moved(c, i, n');
    VotesSoundKept(c, i, m, n');
    NewElectors(c, i, m, n');
    forall d ensures Vote(i, d, n'.term) !in c'.net {
      assert Vote(i, d, n'.term) in c'.net ==> VoteSound(c', Vote(i, d, n'.term));
    }
  }

  lemma {:induction false} OldLeaderElected(c: Cluster, i: NodeId, m: Message, n': Node, t: Term, l: NodeId)
    requires Moves(c, i, m, n') && (t, l) in c.leaders
    ensures Elected(Moved(c, i, n'), l, t)
  {
    var c' := Moved(c, i, n');
    assert Elected(c, l, t);
    var q :| Electors(c, l, t, q);
    assert Electors(c', l, t, q);
    forall d ensures Vote(l, d, t) !in c'.net {
      if Vote(l, d, t) in c'.net { Sent(c, i, m, n', Vote(l, d, t)); }
    }
  }

  lemma {:induction false} AllElectedKept(c: Cluster, i: NodeId, m: Message, n': Node)
    requires Moves(c, i, m, n')
    ensures AllElected(Moved(c, i, n'))
  {
    var c' := Moved(c, i, n');
    forall t, l | (t, l) in c'.leaders ensures Elected(c', l, t) {
      if (t, l) in c.leaders {
        OldLeaderElected(c, i, m, n', t, l);
      } else {
        NewLeaderElected(c, i, m, n');
      }
    }
  }

  // ---- Runs ----

  lemma {:induction false} HappenKeeps(c: Cluster, e: Event)
    requires Invariant(c) && CanHappen(c, e) && !Stale(c, e)
    ensures Invariant(Happen(c, e))
  {
    var i, m, n' := Target(e), Input(e), NodeAfter(c, e);
    StepEffect(c.nodes[i], m);
    assert Moves(c, i, m, n') && Happen(c, e) == Moved(c, i, n');
    WellFormedKept(c, i, m, n');
    AddressedKept(c, i, m, n');
    VotesSoundKept(c, i, m, n');
    VotesAgreeKept(c, i, m, n');
    CountedSentKept(c, i, m, n');
    AllElectedKept(c, i, m, n');
  }

  /** A run: the events, and the cluster before the first and after each of them. */
  datatype Run = Run(states: seq<Cluster>, events: seq<Event>)

  ghost predicate Follows(c: Cluster, e: Event, c': Cluster) {
    CanHappen(c, e) && c' == Happen(c, e)
  }

  ghost predicate Possible(r: Run) {
    && |r.states| == |r.events| + 1 && Initial(r.states[0])
    && forall k {:trigger r.events[k]} :: 0 <= k < |r.events| ==> Follows(r.states[k], r.events[k], r.states[k + 1])
  }

  ghost predicate Stale(c: Cluster, e: Event) {
    Target(e) in c.nodes && StaleForCandidate(c.nodes[Target(e)], Input(e))
  }

  /** No event hands a candidate an append or a heartbeat of an earlier term. */
  ghost predicate Guarded(r: Run)
    requires |r.states| == |r.events| + 1
  {
    forall k {:trigger r.events[k]} :: 0 <= k < |r.events| ==> !Stale(r.states[k], r.events[k])
  }

  ghost predicate TermsGrow(c: Cluster, c': Cluster) {
    c'.nodes.Keys == c.nodes.Keys && forall i :: i in c.nodes ==> c'.nodes[i].term >= c.nodes[i].term
  }

  lemma {:induction false} HappenTerms(c: Cluster, e: Event, c': Cluster)
    requires Follows(c, e, c')
    ensures TermsGrow(c, c') <==> !Stale(c, e)
  {
    TermFallsIff(c.nodes[Target(e)], Input(e));
    assert c'.nodes[Target(e)] == NodeAfter(c, e);
  }

  /** Over every run, no node's term ever falls if and only if no candidate is handed
      an append or a heartbeat of an earlier term. */
  lemma {:induction false} TermsGrowIff(r: Run)
    requires Possible(r)
    ensures (forall k {:trigger r.events[k]} :: 0 <= k < |r.events| ==> TermsGrow(r.states[k], r.states[k + 1])) <==>
            Guarded(r)
  {
    forall k | 0 <= k < |r.events|
      ensures TermsGrow(r.states[k], r.states[k + 1]) <==> !Stale(r.states[k], r.events[k])
    {
      HappenTerms(r.states[k], r.events[k], r.states[k + 1]);
    }
  }

  lemma {:induction false} RunKeeps(r: Run, k: nat)
    requires Possible(r) && Guarded(r) && k < |r.states|
    ensures Invariant(r.states[k])
  {
    if k > 0 {
      RunKeeps(r, k - 1);
      assert Follows(r.states[k - 1], r.events[k - 1], r.states[k]);
      HappenKeeps(r.states[k - 1], r.events[k - 1]);
    }
  }

  /** Election safety: over every run, however messages are dropped, delayed, reordered
      or duplicated, no term ever has two leaders, and whoever leads at any moment is
      that leader of its term. */
  lemma {:induction false} ElectionSafety(r: Run, k: nat)
    requires Possible(r) && Guarded(r) && k < |r.states|
    ensures OneLeaderPerTerm(r.states[k])
    ensures forall i :: i in r.states[k].nodes && r.states[k].nodes[i].role == Leader ==>
              (r.states[k].nodes[i].term, i) in r.states[k].leaders
  {
    RunKeeps(r, k);
    var c := r.states[k];
    forall t, l, l' | (t, l) in c.leaders && (t, l') in c.leaders ensures l == l' {
      SameLeader(c, t, l, l');
    }
  }
}
