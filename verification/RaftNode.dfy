/** The Raft node as the object whose handlers update its fields, each proved against
    the value model. */
module RaftNode {
  import opened Options
  import opened RaftModel
  import opened QuorumSelection
  import opened RaftCommit
  import opened RaftReplication
  import opened RaftCommitRuns
  import RaftElection

  /** The log, updated in place. */
  class RaftLog {
    var entries: seq<Entry>
    var committed: Index
    const stabled: Index

    constructor (entries: seq<Entry>, committed: Index, stabled: Index)
      ensures View() == Log(entries, committed, stabled)
    {
      this.entries, this.committed, this.stabled := entries, committed, stabled;
    }

    function View(): Log
      reads this
    {
      Log(entries, committed, stabled)
    }

    /** `false`: the entries reach into what is committed, and the node panics. */
    method Append(es: seq<Entry>) returns (ok: bool)
      modifies this`entries
      ensures ok ==> RaftModel.Append(old(View()), es) == Some(View())
      ensures !ok ==> RaftModel.Append(old(View()), es) == None
    {
      if |es| == 0 { return true; }
      var after := es[0].index;
      if after <= committed { return false; }
      var first := FirstIndex(View());
      if after > first {
        var offset := after - first;
        if offset < |entries| { entries := entries[..offset]; }
      }
      entries := entries + es;
      ok := true;
    }

    method AdvanceCommit(commit: Index)
      modifies this`committed
      ensures View() == RaftModel.AdvanceCommit(old(View()), commit)
      ensures committed == if commit > old(committed) then Min(commit, LastIndex(View())) else old(committed)
    {
      if commit > committed {
        var last := LastIndex(View());
        committed := if commit < last then commit else last;
      }
    }
  }

  /** How a handler ends. */
  datatype Verdict = Done | Error | Panic

  /** The handler ended as the model says, in the state the model says. */
  ghost predicate Ends(v: Verdict, n: Node, o: Outcome) {
    match v
    case Done => o == Stepped(n)
    case Error => o == Failed(n)
    case Panic => o.Panicked?
  }

  class Raft {
    const id: NodeId
    var term: Term
    var vote: NodeId
    var state: Role
    var votes: map<NodeId, bool>
    var prs: map<NodeId, Progress>
    var lead: NodeId
    const raftLog: RaftLog
    var msgs: seq<Message>

    /** The peers come from the configuration, or from the stored membership if the
        configuration names nobody else. */
    constructor (id: NodeId, term: Term, vote: NodeId, peers: set<NodeId>, stored: set<NodeId>, log: RaftLog)
      ensures raftLog == log && fresh(this)
      ensures var n := View();
              && n.id == id && n.term == term && n.vote == vote && n.role == Follower && n.votes == map[]
              && n.lead == NONE && n.msgs == {}
              && n.prs.Keys == (if peers - {id} == {} then stored - {id} else peers - {id}) && n.log == old(log.View())
      ensures forall p :: p in prs ==> prs[p] == Progress(0, LastIndex(log.View()) + 1)
    {
      this.id, this.term, this.vote, state, lead, msgs := id, term, vote, Follower, NONE, [];
      votes, raftLog := map[], log;
      var last := LastIndex(log.View());
      var others := peers - {id};
      if others == {} { others := stored - {id}; }
      prs := map p | p in others :: Progress(0, last + 1);
    }

    function Sent(): set<Message>
      reads this
    {
      set m | m in msgs
    }

    function View(): Node
      reads this, raftLog
    {
      Node(id, term, vote, state, votes, prs, lead, raftLog.View(), Sent())
    }

    method Push(m: Message)
      modifies this`msgs
      ensures View() == Send(old(View()), m)
    {
      ghost var before := msgs;
      msgs := msgs + [m];
      assert Sent() == (set x | x in before) + {m};
    }

    // ---- Changing role ----

    method BecomeFollower(newTerm: Term, leader: NodeId)
      modifies this
      ensures View() == RaftModel.BecomeFollower(old(View()), newTerm, leader) && msgs == old(msgs)
    {
      term, lead, state, vote, votes := newTerm, leader, Follower, NONE, map[];
    }

    method BecomeCandidate()
      modifies this
      ensures View() == RaftModel.BecomeCandidate(old(View()))
    {
      term, state, vote := term + 1, Candidate, id;
      votes := map[];
      votes := votes[id := true];
      lead := NONE;
    }

    method SendAppend(to: NodeId) returns (v: Verdict)
      modifies this`msgs
      ensures Ends(v, View(), RaftModel.SendAppend(old(View()), to))
    {
      if to !in prs { return Done; }
      var next, last := prs[to].nextIndex, LastIndex(raftLog.View());
      if next > last + 1 { return Done; }
      var entries := [];
      if next <= last {
        var first := FirstIndex(raftLog.View());
        if next < first { return Panic; }
        var start, end := next - first, last - first + 1;
        if |raftLog.entries| < end { end := |raftLog.entries|; }
        if start > end { return Panic; }
        entries := raftLog.entries[start..end];
      }
      if next == 0 { return Panic; }
      Push(Message(MsgAppend, to, id, term, TermOrZero(raftLog.View(), next - 1), next - 1, entries, raftLog.committed,
                   false));
      v := Done;
    }

    method BcastAppend() returns (v: Verdict)
      modifies this`msgs
      ensures Ends(v, View(), RaftModel.BcastAppend(old(View())))
    {
      ghost var n := View();
      var rest := prs.Keys;
      ghost var done: set<NodeId> := {};
      while rest != {}
        invariant done !! rest && done + rest == prs.Keys
        invariant View() == n.(msgs := n.msgs + Appends(n, done))
        invariant forall p :: p in done && p != id ==> AppendMessage(n, p).Some?
      {
        var p :| p in rest;
        if p != id {
          ghost var cur := View();
          AppendMessageIgnoresQueue(n, cur, p);
          v := SendAppend(p);
          if v.Panic? { return; }
        }
        AppendsGrow(n, done, p);
        rest, done := rest - {p}, done + {p};
      }
      assert Peers(n) == prs.Keys - {id};
      assert Appends(n, done) == set p | p in Peers(n) && AppendMessage(n, p).value.Some? ::
               AppendMessage(n, p).value.value;
      v := Done;
    }

    method ResetProgress(next: Index)
      modifies this`prs
      ensures prs == map p | p in old(prs) :: Progress(0, next)
    {
      var rest := prs.Keys;
      while rest != {}
        invariant rest <= prs.Keys == old(prs).Keys
        invariant forall p :: p in prs && p !in rest ==> prs[p] == Progress(0, next)
      {
        var p :| p in rest;
        prs := prs[p := Progress(0, next)];
        rest := rest - {p};
      }
    }

    method BecomeLeader() returns (v: Verdict)
      modifies this, raftLog`entries
      ensures Ends(v, View(), RaftModel.BecomeLeader(old(View())))
    {
      ghost var n := View();
      state, lead := Leader, id;
      var last := LastIndex(raftLog.View());
      ResetProgress(last + 1);
      assert View() == n.(role := Leader, lead := id, prs := map p | p in n.prs :: Progress(0, last + 1));
      var ok := raftLog.Append([Entry(Normal, term, last + 1, [])]);
      if !ok { return Panic; }
      assert RaftModel.BecomeLeader(n) == RaftModel.BcastAppend(View());
      v := BcastAppend();
    }

    method Campaign() returns (v: Verdict)
      modifies this, raftLog`entries
      ensures Ends(v, View(), RaftModel.Campaign(old(View())))
    {
      BecomeCandidate();
      if Quorum(View()) == 1 {
        v := BecomeLeader();
        return;
      }
      var last := LastIndex(raftLog.View());
      var lastTerm := TermSync(raftLog.View(), last);
      if lastTerm.None? { return Error; }
      AskForVotes(last, lastTerm.value);
      v := Done;
    }

    method AskForVotes(last: Index, lastTerm: Term)
      requires last == LastIndex(raftLog.View())
      modifies this`msgs
      ensures View() == old(View()).(msgs := old(View()).msgs + set p | p in Peers(old(View())) ::
                                     VoteRequest(old(View()), p, lastTerm))
    {
      ghost var n := View();
      var rest := prs.Keys;
      ghost var done: set<NodeId> := {};
      while rest != {}
        invariant done !! rest && done + rest == prs.Keys
        invariant View() == n.(msgs := n.msgs + set p | p in done && p != id :: VoteRequest(n, p, lastTerm))
      {
        var p :| p in rest;
        if p != id { Push(Message(MsgRequestVote, p, id, term, lastTerm, last, [], 0, false)); }
        rest, done := rest - {p}, done + {p};
      }
      assert done - {id} == Peers(n);
    }

    // ---- Handlers ----

    method HandleRequestVote(m: Message)
      modifies this
      ensures View() == RaftModel.HandleRequestVote(old(View()), m)
    {
      if m.term < term {
        Push(VoteResponse(View(), m.src, true));
        return;
      }
      if m.term > term { BecomeFollower(m.term, NONE); }
      var canVote := vote == NONE || vote == m.src;
      var lastIndex := LastIndex(raftLog.View());
      var lastTerm := TermOrZero(raftLog.View(), lastIndex);
      var logOk := m.logTerm > lastTerm || (m.logTerm == lastTerm && m.index >= lastIndex);
      if canVote && logOk {
        vote := m.src;
        Push(VoteResponse(View(), m.src, false));
      } else {
        Push(VoteResponse(View(), m.src, true));
      }
    }

    /** Counts the votes for and against. */
    method CountVotes() returns (granted: nat, rejected: nat)
      ensures granted == |Granted(votes)| && rejected == |Rejected(votes)|
    {
      granted, rejected := 0, 0;
      var rest := votes.Keys;
      ghost var done: map<NodeId, bool> := map[];
      assert Granted(done) == Rejected(done) == {};
      while rest != {}
        invariant rest <= votes.Keys && done == map p | p in votes && p !in rest :: votes[p]
        invariant granted == |Granted(done)| && rejected == |Rejected(done)|
      {
        var p :| p in rest;
        GrantedOne(done, p, votes[p]);
        RejectedOne(done, p, votes[p]);
        if votes[p] {
          granted := granted + 1;
        } else {
          rejected := rejected + 1;
        }
        rest, done := rest - {p}, done[p := votes[p]];
      }
      assert done == votes;
    }

    method HandleRequestVoteResponse(m: Message) returns (v: Verdict)
      modifies this, raftLog`entries
      ensures Ends(v, View(), RaftModel.HandleRequestVoteResponse(old(View()), m))
    {
      if m.term != term || state != Candidate { return Done; }
      votes := votes[m.src := !m.reject];
      var granted, rejected := CountVotes();
      v := Done;
      if granted >= Quorum(View()) {
        v := BecomeLeader();
      } else if rejected >= Quorum(View()) {
        BecomeFollower(term, NONE);
      }
    }

    method HandleAppendEntries(m: Message) returns (v: Verdict)
      modifies this, raftLog
      ensures Ends(v, View(), RaftModel.HandleAppendEntries(old(View()), m))
      ensures !v.Panic? ==>
                TakesCommit(old(View()), m, View(), m.term >= old(term) && Matches(old(raftLog.View()), m))
    {
      if m.term < term {
        Push(AppendResponse(View(), m.src, true, 0));
        return Done;
      }
      if m.term > term { term := m.term; }
      lead := m.src;
      if m.index > LastIndex(raftLog.View()) {
        Push(AppendResponse(View(), m.src, true, LastIndex(raftLog.View())));
        return Done;
      }
      if m.index > 0 {
        var t := TermSync(raftLog.View(), m.index);
        if t.None? { return Error; }
        if t.value != m.logTerm {
          Push(AppendResponse(View(), m.src, true, m.index - 1));
          return Done;
        }
      }
      if |m.entries| > 0 {
        var ok := raftLog.Append(m.entries);
        if !ok { return Panic; }
      }
      raftLog.AdvanceCommit(m.commit);
      Push(AppendResponse(View(), m.src, false, LastIndex(raftLog.View())));
      v := Done;
    }

    method HandleHeartbeat(m: Message)
      modifies this, raftLog`committed
      ensures View() == RaftModel.HandleHeartbeat(old(View()), m)
      ensures TakesCommit(old(View()), m, View(), m.term >= old(term))
    {
      if m.term < term { return; }
      if m.term > term { term := m.term; }
      lead := m.src;
      raftLog.AdvanceCommit(m.commit);
      Push(Plain(MsgHeartbeatResponse, m.src, id, term));
    }

    method MaybeCommit()
      modifies raftLog`committed
      ensures View() == RaftModel.MaybeCommit(old(View()))
    {
      if state != Leader { return; }
      var quorum := Quorum(View());
      if |prs| >= quorum {
        var c := SelectQuorumIndex(prs, quorum);
        QuorumIndexUnique(prs, quorum, c, QuorumIndex(prs, quorum));
        if c > raftLog.committed && TermOrZero(raftLog.View(), c) == term { raftLog.committed := c; }
      }
    }

    method HandleAppendResponse(m: Message) returns (v: Verdict)
      modifies this`prs, this`msgs, raftLog`committed
      ensures Ends(v, View(), RaftModel.HandleAppendResponse(old(View()), m))
    {
      if m.term < term { return Done; }
      if m.src in prs {
        if m.reject {
          var p := DecreaseNext(prs[m.src], m.index);
          if p.None? { return Panic; }
          prs := prs[m.src := p.value];
        } else {
          prs := prs[m.src := Progress(m.index, m.index + 1)];
        }
      }
      if !m.reject { MaybeCommit(); }
      v := Done;
      if m.src in prs && (m.reject || prs[m.src].nextIndex <= LastIndex(raftLog.View())) { v := SendAppend(m.src); }
    }

    method HandleHeartbeatResponse(m: Message) returns (v: Verdict)
      modifies this`msgs
      ensures Ends(v, View(), RaftModel.HandleHeartbeatResponse(old(View()), m))
    {
      if m.term < term { return Done; }
      v := Done;
      if m.src in prs && prs[m.src].nextIndex <= LastIndex(raftLog.View()) { v := SendAppend(m.src); }
    }

    method BcastHeartbeat()
      modifies this`msgs
      ensures View() == RaftModel.BcastHeartbeat(old(View()))
    {
      ghost var n := View();
      var rest := prs.Keys;
      ghost var done: set<NodeId> := {};
      while rest != {}
        invariant done !! rest && done + rest == prs.Keys
        invariant View() == n.(msgs := n.msgs + set p | p in done && p != id :: HeartbeatMessage(n, p))
      {
        var p :| p in rest;
        if p != id { Push(HeartbeatMessage(View(), p)); }
        rest, done := rest - {p}, done + {p};
      }
      assert done - {id} == Peers(n);
    }

    method Propose(m: Message) returns (v: Verdict)
      modifies this`msgs, raftLog
      ensures Ends(v, View(), RaftModel.Propose(old(View()), m))
    {
      var last := LastIndex(raftLog.View());
      var entries: seq<Entry> := [];
      for i := 0 to |m.entries|
        invariant entries == Proposed(View(), m.entries)[..i]
      {
        entries := entries + [m.entries[i].(term := term, index := last + 1 + i)];
      }
      assert entries == Proposed(View(), m.entries);
      var ok := raftLog.Append(entries);
      if !ok { return Panic; }
      MaybeCommit();
      v := BcastAppend();
    }

    // ---- Dispatch ----

    method StepFollower(m: Message) returns (v: Verdict)
      modifies this, raftLog
      ensures Ends(v, View(), RaftModel.StepFollower(old(View()), m))
    {
      v := Done;
      match m.kind {
        case MsgHup => v := Campaign();
        case MsgBeat => if lead != NONE { Push(m.(dst := lead)); }
        case MsgPropose => if lead != NONE { Push(m.(dst := lead)); }
        case MsgAppend => v := HandleAppendEntries(m);
        case MsgHeartbeat => HandleHeartbeat(m);
        case MsgRequestVote => HandleRequestVote(m);
        case _ =>
      }
    }

    method StepCandidate(m: Message) returns (v: Verdict)
      modifies this, raftLog
      ensures Ends(v, View(), RaftModel.StepCandidate(old(View()), m))
    {
      v := Done;
      match m.kind {
        case MsgHup => v := Campaign();
        case MsgAppend =>
          BecomeFollower(m.term, m.src);
          v := HandleAppendEntries(m);
        case MsgHeartbeat =>
          BecomeFollower(m.term, m.src);
          HandleHeartbeat(m);
        case MsgRequestVote => HandleRequestVote(m);
        case MsgRequestVoteResponse => v := HandleRequestVoteResponse(m);
        case _ =>
      }
    }

    method StepLeader(m: Message) returns (v: Verdict)
      modifies this, raftLog
      ensures Ends(v, View(), RaftModel.StepLeader(old(View()), m))
    {
      v := Done;
      match m.kind {
        case MsgBeat => BcastHeartbeat();
        case MsgPropose => v := Propose(m);
        case MsgAppendResponse => v := HandleAppendResponse(m);
        case MsgHeartbeatResponse => v := HandleHeartbeatResponse(m);
        case MsgRequestVote => HandleRequestVote(m);
        case _ =>
      }
    }

    /** Handles a message as the model says. Unless the node panics, its term falls exactly
        when a candidate is handed an append or heartbeat of an earlier term, and its commit
        index does not fall and stays inside the log. From an append or a heartbeat it takes
        over the sender's commit index as far as its log reaches. */
    method Step(m: Message) returns (v: Verdict)
      modifies this, raftLog
      ensures Ends(v, View(), RaftModel.Step(old(View()), m))
      ensures !v.Panic? ==> (term < old(term) <==> RaftElection.StaleForCandidate(old(View()), m))
      ensures !v.Panic? && InBounds(old(View())) && WellFormedAppend(m) ==> Advances(old(View()), View())
      ensures !v.Panic? && Carries(m) ==> TakesCommit(old(View()), m, View(), Obeys(old(View()), m))
    {
      StepConsequences(View(), m);
      if m.term > term {
        if m.kind == MsgRequestVote || m.kind == MsgAppend {
          BecomeFollower(m.term, NONE);
        } else {
          BecomeFollower(m.term, m.src);
        }
      }
      match state {
        case Follower => v := StepFollower(m);
        case Candidate => v := StepCandidate(m);
        case Leader => v := StepLeader(m);
      }
    }
  }

  lemma {:induction false} StepConsequences(n: Node, m: Message)
    ensures !RaftModel.Step(n, m).Panicked? ==>
              (RaftModel.Step(n, m).node.term < n.term <==> RaftElection.StaleForCandidate(n, m))
    ensures !RaftModel.Step(n, m).Panicked? && InBounds(n) && WellFormedAppend(m) ==>
              Advances(n, RaftModel.Step(n, m).node)
    ensures !RaftModel.Step(n, m).Panicked? && Carries(m) ==>
              TakesCommit(n, m, RaftModel.Step(n, m).node, Obeys(n, m))
  {
    if !RaftModel.Step(n, m).Panicked? {
      RaftElection.TermFallsIff(n, m);
      if Carries(m) { FollowerCommits(n, m); }
      if InBounds(n) && WellFormedAppend(m) { StepAdvances(n, m); }
    }
  }

  lemma {:induction false} GrantedOne(votes: map<NodeId, bool>, p: NodeId, b: bool)
    requires p !in votes
    ensures |Granted(votes[p := b])| == |Granted(votes)| + (if b then 1 else 0)
  {
    var a, a' := Granted(votes), Granted(votes[p := b]);
    assert forall x :: x in a' <==> x in a || (x == p && b);
    assert a' == if b then a + {p} else a;
  }

  lemma {:induction false} RejectedOne(votes: map<NodeId, bool>, p: NodeId, b: bool)
    requires p !in votes
    ensures |Rejected(votes[p := b])| == |Rejected(votes)| + (if b then 0 else 1)
  {
    var a, a' := Rejected(votes), Rejected(votes[p := b]);
    assert forall x :: x in a' <==> x in a || (x == p && !b);
    assert a' == if !b then a + {p} else a;
  }

  /** The appends for the peers in `ids`. */
  ghost function Appends(n: Node, ids: set<NodeId>): set<Message> {
    set p | p in ids && p != n.id && AppendMessage(n, p).Some? && AppendMessage(n, p).value.Some? ::
      AppendMessage(n, p).value.value
  }

  lemma {:induction false} AppendMessageIgnoresQueue(n: Node, n': Node, p: NodeId)
    requires n' == n.(msgs := n'.msgs)
    ensures AppendMessage(n', p) == AppendMessage(n, p)
  {
  }

  lemma {:induction false} AppendsGrow(n: Node, ids: set<NodeId>, p: NodeId)
    ensures Appends(n, ids + {p}) == Appends(n, ids) + if p != n.id && AppendMessage(n, p).Some?
            && AppendMessage(n, p).value.Some? then {AppendMessage(n, p).value.value} else {}
  {
  }
}
