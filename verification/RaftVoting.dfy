/** Whom a majority elects: a leader whose log no elector was ahead of. */
module RaftVoting {
  import opened Options
  import opened RaftModel
  import opened RaftElection

  /** The end of `a`, by term and then by index, does not lie beyond the end of `b`. */
  predicate NotAhead(a: Log, b: Log) {
    var ta, tb := TermOrZero(a, LastIndex(a)), TermOrZero(b, LastIndex(b));
    tb > ta || (tb == ta && LastIndex(b) >= LastIndex(a))
  }

  /** At event `i` node `m.src` timed out, entered the term of the request `m`, and its log
      was the one that `m` describes. */
  ghost predicate Campaigned(r: Run, i: nat, m: Message)
    requires Possible(r)
  {
    && i < |r.events| && Target(r.events[i]) == m.src && Input(r.events[i]).kind == MsgHup
    && m.src in r.states[i].nodes && m.src in r.states[i + 1].nodes
    && r.states[i + 1].nodes[m.src].term == m.term && Describes(m, r.states[i].nodes[m.src].log)
  }

  /** At event `k` the voter was handed a vote request of `l` for term `t` that was up to
      date with its log, and it gave its vote. */
  ghost predicate Balloted(r: Run, k: nat, voter: NodeId, l: NodeId, t: Term)
    requires Possible(r)
  {
    && k < |r.events| && r.events[k].Deliver? && voter in r.states[k].nodes
    && var m := r.events[k].m;
       && m.kind == MsgRequestVote && m.src == l && m.dst == voter && m.term == t && m in r.states[k].net
       && UpToDate(r.states[k].nodes[voter].log, m) && Vote(voter, l, t) in r.states[k + 1].net
  }

  /** What event `j` put on the network. */
  lemma {:induction false} SentAt(r: Run, j: nat, x: Message)
    requires Possible(r) && Guarded(r) && j < |r.events| && x in r.states[j + 1].net && x !in r.states[j].net
    ensures var c, e := r.states[j], r.events[j];
            && Follows(c, e, r.states[j + 1]) && Target(e) in c.nodes
            && NewMessage(c.nodes[Target(e)], Input(e), NodeAfter(c, e), x) && c.nodes[Target(e)].id == Target(e)
  {
    RunKeeps(r, j);
    var c, e := r.states[j], r.events[j];
    assert Follows(c, e, r.states[j + 1]);
    StepEffect(c.nodes[Target(e)], Input(e));
    assert Moves(c, Target(e), Input(e), NodeAfter(c, e));
    Sent(c, Target(e), Input(e), NodeAfter(c, e), x);
  }

  lemma {:induction false} RequestWasSent(r: Run, j: nat, m: Message) returns (i: nat)
    requires Possible(r) && Guarded(r) && j < |r.states| && m in r.states[j].net && m.kind == MsgRequestVote
    ensures i < j && Campaigned(r, i, m)
    decreases j
  {
    assert j > 0;
    if m in r.states[j - 1].net {
      i := RequestWasSent(r, j - 1, m);
    } else {
      i := j - 1;
      SentAt(r, i, m);
    }
  }

  lemma {:induction false} VoteWasCast(r: Run, j: nat, voter: NodeId, l: NodeId, t: Term) returns (k: nat)
    requires Possible(r) && Guarded(r) && j < |r.states| && Vote(voter, l, t) in r.states[j].net
    ensures k < j && Balloted(r, k, voter, l, t)
    decreases j
  {
    assert j > 0;
    if Vote(voter, l, t) in r.states[j - 1].net {
      k := VoteWasCast(r, j - 1, voter, l, t);
    } else {
      k := j - 1;
      SentAt(r, k, Vote(voter, l, t));
    }
  }

  /** `l` timed out at event `i` and so entered term `t`; later, at event `k`, `p` gave it its
      vote, and the log of `p` was not ahead of the one `l` campaigned with. */
  ghost predicate VotedNotAhead(r: Run, i: nat, k: nat, p: NodeId, l: NodeId, t: Term)
    requires Possible(r)
  {
    && i < k && Balloted(r, k, p, l, t) && Campaigned(r, i, r.events[k].m)
    && NotAhead(r.states[k].nodes[p].log, r.states[i].nodes[l].log)
  }

  /** `p` voted so before state `j`. */
  ghost predicate Elector(r: Run, j: nat, p: NodeId, l: NodeId, t: Term)
    requires Possible(r)
  {
    exists i: nat, k: nat :: k < j && VotedNotAhead(r, i, k, p, l, t)
  }

  lemma {:induction false} ElectorNotAhead(r: Run, j: nat, p: NodeId, l: NodeId, t: Term)
    requires Possible(r) && Guarded(r) && j < |r.states| && Vote(p, l, t) in r.states[j].net
    ensures Elector(r, j, p, l, t)
  {
    var k := VoteWasCast(r, j, p, l, t);
    var i := RequestWasSent(r, k, r.events[k].m);
    assert VotedNotAhead(r, i, k, p, l, t);
  }

  lemma {:induction false} ElectorsOf(r: Run, j: nat, l: NodeId, t: Term) returns (q: set<NodeId>)
    requires Possible(r) && Guarded(r) && j < |r.states| && (t, l) in r.states[j].leaders
    ensures Electors(r.states[j], l, t, q)
  {
    RunKeeps(r, j);
    assert Elected(r.states[j], l, t);
    q :| Electors(r.states[j], l, t, q);
  }

  /** The electors of a leader: a majority, each of which but the leader itself voted with a
      log that was not ahead of the one the leader campaigned with. */
  ghost predicate Elects(r: Run, j: nat, q: set<NodeId>, l: NodeId, t: Term)
    requires Possible(r) && j < |r.states|
  {
    && q <= r.states[j].members && l in q && 2 * |q| > |r.states[j].members|
    && forall p {:trigger Elector(r, j, p, l, t)} :: p in q && p != l ==> Elector(r, j, p, l, t)
  }

  /** The election restriction (section 5.4.1 of the Raft paper), over every run in which no
      candidate is handed an append or a heartbeat of an earlier term: whoever has led a
      term was elected by a majority none of which had a log ahead of its own. */
  lemma {:induction false} ElectorsNotAhead(r: Run, j: nat, l: NodeId, t: Term)
    requires Possible(r) && Guarded(r) && j < |r.states| && (t, l) in r.states[j].leaders
    ensures exists q :: Elects(r, j, q, l, t)
  {
    var q := ElectorsOf(r, j, l, t);
    forall p | p in q && p != l ensures Elector(r, j, p, l, t) {
      assert Vote(p, l, t) in r.states[j].net;
      ElectorNotAhead(r, j, p, l, t);
    }
    assert Elects(r, j, q, l, t);
  }
}
