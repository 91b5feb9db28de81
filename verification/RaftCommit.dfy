/** The commit index: what moves it, and where it stays. */
module RaftCommit {
  import opened Options
  import opened RaftModel
  import opened RaftElection

  // ---- A commit has a majority behind it ----

  lemma {:induction false} QuorumsMeet(members: set<NodeId>, a: set<NodeId>, b: set<NodeId>)
    requires a <= members && b <= members && |a| + |b| > |members|
    ensures exists p :: p in a && p in b
  {
    if a !! b { DisjointSize(a, b, members); }
  }

  lemma {:induction false} QuorumIndexUnique(prs: map<NodeId, Progress>, q: nat, c: Index, c': Index)
    requires IsQuorumIndex(prs, q, c) && IsQuorumIndex(prs, q, c')
    ensures c == c'
  {
    assert c < c' ==> |Reached(prs, c')| < q;
    assert c' < c ==> |Reached(prs, c)| < q;
  }

  lemma {:induction false} QuorumHasPeers(prs: map<NodeId, Progress>, q: nat, c: Index)
    requires IsQuorumIndex(prs, q, c)
    ensures q <= |prs|
  {
    ReachedShrinks(prs, 0, c);
  }

  /** The commit index moves to `c` if and only if the node leads, `c` lies above it,
      the entry at `c` is of the current term, and `c` is the largest index that a
      quorum of the other members has reached. Nothing but the commit index moves. */
  lemma {:induction false} CommitsIff(n: Node, c: Index)
    requires n.role == Leader ==> n.term > 0
    ensures MaybeCommit(n) == n.(log := n.log.(committed := MaybeCommit(n).log.committed))
    ensures MaybeCommit(n).log.committed == c != n.log.committed <==>
            n.role == Leader && c > n.log.committed && TermSync(n.log, c) == Some(n.term)
            && IsQuorumIndex(n.prs, Quorum(n), c)
  {
    if n.role == Leader && |n.prs| >= Quorum(n) {
      var q := QuorumIndex(n.prs, Quorum(n));
      if IsQuorumIndex(n.prs, Quorum(n), c) { QuorumIndexUnique(n.prs, Quorum(n), c, q); }
    } else if IsQuorumIndex(n.prs, Quorum(n), c) {
      QuorumHasPeers(n.prs, Quorum(n), c);
    }
  }

  /** When the commit index has moved to `c`, every quorum of the members contains a
      peer that has the log up to `c`. */
  lemma {:induction false} CommitNeedsMajority(n: Node, q: set<NodeId>)
    requires n.id !in n.prs && (n.role == Leader ==> n.term > 0)
    requires MaybeCommit(n).log.committed != n.log.committed
    requires q <= n.prs.Keys + {n.id} && |q| >= Quorum(n)
    ensures |Reached(n.prs, MaybeCommit(n).log.committed)| >= Quorum(n)
    ensures exists p :: p in q && p in n.prs && n.prs[p].matchIndex >= MaybeCommit(n).log.committed
  {
    var c := MaybeCommit(n).log.committed;
    CommitsIff(n, c);
    assert |n.prs.Keys + {n.id}| == |n.prs| + 1;
    QuorumsMeet(n.prs.Keys + {n.id}, q, Reached(n.prs, c));
    var p :| p in q && p in Reached(n.prs, c);
  }

  /** The leader does not count itself, so a cluster of one or two members commits
      nothing through its leader. */
  lemma {:induction false} SmallClustersNeverCommit(n: Node)
    ensures |n.prs| <= 1 ==> MaybeCommit(n) == n
    ensures |n.prs| >= 2 ==> Quorum(n) <= |n.prs|
  {
  }

  // ---- Bounds ----

  predicate InBounds(n: Node) {
    n.log.committed <= LastIndex(n.log) && (n.role != Follower ==> n.term > 0)
  }

  /** The entries of an append do not run backwards. */
  predicate WellFormedAppend(m: Message) {
    m.kind == MsgAppend && |m.entries| > 0 ==> m.entries[|m.entries| - 1].index >= m.entries[0].index
  }

  /** `n'` keeps the bounds and has committed at least as much as `n`. */
  predicate Advances(n: Node, n': Node) {
    InBounds(n') && n'.log.committed >= n.log.committed
  }

  lemma {:induction false} LeadingAdvances(n: Node)
    requires InBounds(n) && n.term > 0 && !BecomeLeader(n).Panicked?
    ensures Advances(n, BecomeLeader(n).node)
  {
    var last := LastIndex(n.log);
    var reset := map p | p in n.prs :: Progress(0, last + 1);
    var log := Append(n.log, [Entry(Normal, n.term, last + 1, [])]).value;
    BcastAppendEffect(n.(role := Leader, lead := n.id, prs := reset, log := log));
  }

  lemma {:induction false} CampaignAdvances(n: Node)
    requires InBounds(n) && !Campaign(n).Panicked?
    ensures Advances(n, Campaign(n).node)
  {
    var c := BecomeCandidate(n);
    if Quorum(c) == 1 { LeadingAdvances(c); }
  }

  /** An append that does not panic leaves what is committed inside the log. */
  lemma {:induction false} AppendedInside(l: Log, es: seq<Entry>)
    requires l.committed <= LastIndex(l) && Append(l, es).Some?
    requires |es| > 0 ==> es[|es| - 1].index >= es[0].index
    ensures Append(l, es).value.committed == l.committed <= LastIndex(Append(l, es).value)
  {
  }

  lemma {:induction false} AppendAdvances(n: Node, m: Message)
    requires InBounds(n) && m.kind == MsgAppend && WellFormedAppend(m) && !HandleAppendEntries(n, m).Panicked?
    ensures Advances(n, HandleAppendEntries(n, m).node)
  {
    if Append(n.log, m.entries).Some? { AppendedInside(n.log, m.entries); }
  }

  lemma {:induction false} CommittingAdvances(n: Node)
    requires InBounds(n)
    ensures Advances(n, MaybeCommit(n))
  {
    CommitsIff(n, MaybeCommit(n).log.committed);
  }

  lemma {:induction false} ProposeAdvances(n: Node, m: Message)
    requires InBounds(n) && !Propose(n, m).Panicked?
    ensures Advances(n, Propose(n, m).node)
  {
    var p := n.(log := Append(n.log, Proposed(n, m.entries)).value);
    CommittingAdvances(p);
    BcastAppendEffect(MaybeCommit(p));
  }

  lemma {:induction false} AppendResponseAdvances(n: Node, m: Message)
    requires InBounds(n) && !HandleAppendResponse(n, m).Panicked?
    ensures Advances(n, HandleAppendResponse(n, m).node)
  {
    if m.term >= n.term && !m.reject {
      var f := if m.src in n.prs then n.(prs := n.prs[m.src := Progress(m.index, m.index + 1)]) else n;
      CommittingAdvances(f);
    }
  }

  lemma {:induction false} VoteResponseAdvances(n: Node, m: Message)
    requires InBounds(n) && !HandleRequestVoteResponse(n, m).Panicked?
    ensures Advances(n, HandleRequestVoteResponse(n, m).node)
  {
    if m.term == n.term && n.role == Candidate {
      var v := n.(votes := n.votes[m.src := !m.reject]);
      if |Granted(v.votes)| >= Quorum(v) { LeadingAdvances(v); }
    }
  }

  lemma {:induction false} StepAdvances(n: Node, m: Message)
    requires InBounds(n) && WellFormedAppend(m) && !Step(n, m).Panicked?
    ensures Advances(n, Step(n, m).node)
  {
    var c := Catch(n, m);
    match m.kind {
      case MsgHup => if c.role != Leader { CampaignAdvances(c); }
      case MsgAppend =>
        if c.role == Follower { AppendAdvances(c, m); }
        if c.role == Candidate { AppendAdvances(BecomeFollower(c, m.term, m.src), m); }
      case MsgRequestVoteResponse => if c.role == Candidate { VoteResponseAdvances(c, m); }
      case MsgPropose => if c.role == Leader { ProposeAdvances(c, m); }
      case MsgAppendResponse => if c.role == Leader { AppendResponseAdvances(c, m); }
      case _ =>
    }
  }

  /** The states of one node that handles `ms` one after the other. */
  ghost predicate Handles(ns: seq<Node>, ms: seq<Message>) {
    && |ns| == |ms| + 1
    && forall k {:trigger ms[k]} :: 0 <= k < |ms| ==>
         !Step(ns[k], ms[k]).Panicked? && ns[k + 1] == Step(ns[k], ms[k]).node
  }

  /** Over every run of a node that starts as a follower with a commit index inside its
      log, whatever messages it handles, truncating appends included: the commit index
      never decreases and never passes the last index of the log. */
  lemma {:induction false} CommitBounds(ns: seq<Node>, ms: seq<Message>, j: nat, k: nat)
    requires Handles(ns, ms) && (forall x :: 0 <= x < |ms| ==> WellFormedAppend(ms[x]))
    requires ns[0].role == Follower && ns[0].log.committed <= LastIndex(ns[0].log)
    requires j <= k < |ns|
    ensures ns[j].log.committed <= ns[k].log.committed <= LastIndex(ns[k].log)
    ensures ns[k].role != Follower ==> ns[k].term > 0
    decreases k
  {
    if k > 0 {
      CommitBounds(ns, ms, if j < k then j else 0, k - 1);
      assert ns[k] == Step(ns[k - 1], ms[k - 1]).node;
      StepAdvances(ns[k - 1], ms[k - 1]);
    }
  }
}
