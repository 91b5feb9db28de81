/** Proposals that reach the other nodes, and what makes the leader commit them. */
module RaftProposals {
  import opened Options
  import opened RaftModel
  import opened RaftElection
  import opened RaftCommit
  import opened RaftReplication
  import opened RaftCommitRuns
  import opened RaftProgress

  // ---- A proposal that reaches a peer ----

  /** Handling the messages one after the other, without error, takes a node through these states. */
  ghost predicate Passes(ns: seq<Node>, ms: seq<Message>) {
    |ns| == |ms| + 1 && forall k {:trigger ms[k]} :: 0 <= k < |ms| ==> Step(ns[k], ms[k]) == Stepped(ns[k + 1])
  }

  ghost predicate Becomes(n: Node, m: Message, n': Node) {
    Passes([n, n'], [m])
  }

  lemma {:induction false} BecomesByStep(n: Node, m: Message, n': Node)
    ensures Becomes(n, m, n') <==> Step(n, m) == Stepped(n')
  {
    if Becomes(n, m, n') { assert [m][0] == m; }
  }

  /** A proposal changes the log, and then an append goes to every peer. */
  lemma {:induction false} AfterProposal(l: Node, m: Message, l': Node) returns (p: Node)
    requires l.role == Leader && m.kind == MsgPropose && m.term <= l.term && Becomes(l, m, l')
    ensures BcastAppend(p) == Stepped(l') && l' == p.(msgs := l'.msgs) && p == l.(log := p.log)
    ensures Append(l.log, Proposed(l, m.entries)).Some?
    ensures p.log == Append(l.log, Proposed(l, m.entries)).value.(committed := p.log.committed)
    ensures p == MaybeCommit(l.(log := Append(l.log, Proposed(l, m.entries)).value))
  {
    BecomesByStep(l, m, l');
    p := MaybeCommit(l.(log := Append(l.log, Proposed(l, m.entries)).value));
    BcastAppendEffect(p);
  }

  /** What a leader is given to propose ends its log, in its term and with its data; the entries
      before stay. */
  lemma {:induction false} ProposalLogged(l: Node, m: Message, l': Node, k: Index)
    requires l.role == Leader && m.kind == MsgPropose && m.term <= l.term && Becomes(l, m, l')
    requires Contiguous(l.log.entries)
    ensures var last, log := LastIndex(l.log), l'.log;
            && Contiguous(log.entries) && LastIndex(log) == last + |m.entries|
            && (k <= last ==> EntryAt(log, k) == EntryAt(l.log, k))
            && (last < k <= last + |m.entries| ==>
                  var e := m.entries[k - last - 1];
                  EntryAt(log, k) == Some(Entry(e.entryType, l.term, k, e.data)))
  {
    var p := AfterProposal(l, m, l');
    ProposedLogged(l, m.entries, k);
    EntriesOnly(Append(l.log, Proposed(l, m.entries)).value, l'.log, k);
  }

  lemma {:induction false} EntriesOnly(a: Log, b: Log, k: Index)
    requires b == a.(committed := b.committed)
    ensures EntryAt(b, k) == EntryAt(a, k) && LastIndex(b) == LastIndex(a) && FirstIndex(b) == FirstIndex(a)
  {
  }

  lemma {:induction false} ProposedLogged(l: Node, es: seq<Entry>, k: Index)
    requires Contiguous(l.log.entries) && Append(l.log, Proposed(l, es)).Some?
    ensures var last, log := LastIndex(l.log), Append(l.log, Proposed(l, es)).value;
            && Contiguous(log.entries) && LastIndex(log) == last + |es| && log.committed == l.log.committed
            && (k <= last ==> EntryAt(log, k) == EntryAt(l.log, k))
            && (last < k <= last + |es| ==>
                  EntryAt(log, k) == Some(Entry(es[k - last - 1].entryType, l.term, k, es[k - last - 1].data)))
  {
    if |es| > 0 {
      AppendContiguousIff(l.log, Proposed(l, es));
      AppendReplaces(l.log, Proposed(l, es), k);
    }
  }

  /** The follower has the entry before the next one it needs, and nothing committed from there
      on. */
  predicate InStep(l: Node, f: Node) {
    && f.id in l.prs && f.id != l.id && f.role == Follower && f.term <= l.term && Contiguous(f.log.entries)
    && var next := l.prs[f.id].nextIndex;
       && FirstIndex(l.log) <= next <= LastIndex(l.log) + 1 && f.log.committed < next <= LastIndex(f.log) + 1
       && (next == 1 || (TermSync(f.log, next - 1).Some? && TermSync(f.log, next - 1) == TermSync(l.log, next - 1)))
       && (f.log.entries == [] || FirstIndex(f.log) < next)
  }

  /** The log of the follower from `next` on is the log of the leader. */
  ghost predicate SameFrom(f: Log, l: Log, next: Index) {
    LastIndex(f) == LastIndex(l) && forall k {:trigger EntryAt(f, k)} :: k >= next ==> EntryAt(f, k) == EntryAt(l, k)
  }

  /** The entries of the log from `next` on. */
  function From(l: Log, next: Index): seq<Entry>
    requires FirstIndex(l) <= next <= FirstIndex(l) + |l.entries|
  {
    l.entries[next - FirstIndex(l)..]
  }

  lemma {:induction false} LastOf(l: Log)
    requires Contiguous(l.entries)
    ensures LastIndex(l) + 1 == FirstIndex(l) + |l.entries|
  {
  }

  /** The append for a peer carries all the leader has from the next index on. */
  lemma {:induction false} AppendFits(l: Node, p: NodeId) returns (x: Message)
    requires Contiguous(l.log.entries) && p in l.prs
    requires 0 < l.prs[p].nextIndex && FirstIndex(l.log) <= l.prs[p].nextIndex <= LastIndex(l.log)
    ensures l.prs[p].nextIndex <= FirstIndex(l.log) + |l.log.entries| && AppendMessage(l, p) == Some(Some(x))
    ensures var next := l.prs[p].nextIndex;
            x == Message(MsgAppend, p, l.id, l.term, TermOrZero(l.log, next - 1), next - 1, From(l.log, next),
                         l.log.committed, false)
  {
    var next := l.prs[p].nextIndex;
    LastOf(l.log);
    x := AppendWith(l, p, next, From(l.log, next));
    assert l.log.entries[next - FirstIndex(l.log)..|l.log.entries|] == From(l.log, next);
  }

  lemma {:induction false} TailOfLog(l: Log, next: Index)
    requires Contiguous(l.entries) && FirstIndex(l) <= next <= LastIndex(l)
    ensures next <= FirstIndex(l) + |l.entries|
    ensures var es := From(l, next);
            |es| > 0 && Contiguous(es) && es[0].index == next && es[|es| - 1].index == LastIndex(l)
  {
    LastOf(l);
  }

  /** The log of `f'` is the leader's from `next` on and that of `f` before. */
  ghost predicate CaughtUpFrom(f: Log, f': Log, l: Log, next: Index) {
    && SameFrom(f', l, next)
    && forall k: Index {:trigger EntryAt(f, k)} :: k < next ==> EntryAt(f', k) == EntryAt(f, k)
  }

  /** The entries of an append that joins end the log, and with them it is the leader's. */
  lemma {:induction false} TakesWhole(f: Log, es: seq<Entry>, l: Log, next: Index)
    requires Contiguous(f.entries) && Contiguous(l.entries) && FirstIndex(l) <= next <= LastIndex(l)
    requires next <= FirstIndex(l) + |l.entries| && es == From(l, next) && next > f.committed
    requires |es| > 0 && Contiguous(es) && es[0].index == next && es[|es| - 1].index == LastIndex(l) && Joins(f, es)
    ensures Append(f, es).Some? && CaughtUpFrom(f, Append(f, es).value, l, next)
  {
    var f' := Append(f, es).value;
    AppendReplaces(f, es, 0);
    LastOf(l);
    forall k: Index | k >= next ensures EntryAt(f', k) == EntryAt(l, k) { AppendReplaces(f, es, k); }
    forall k: Index | k < next ensures EntryAt(f', k) == EntryAt(f, k) { AppendReplaces(f, es, k); }
  }

  /** A follower that is handed a matching append takes it and says so. */
  lemma {:induction false} MatchingAppendTaken(f: Node, x: Message) returns (f': Node, y: Message)
    requires f.role == Follower && x.kind == MsgAppend && x.term >= f.term && Matches(f.log, x)
    requires Append(f.log, x.entries).Some?
    ensures Becomes(f, x, f') && f'.term == x.term
    ensures f'.log == Append(f.log, x.entries).value.(committed := f'.log.committed)
    ensures y in f'.msgs && y.kind == MsgAppendResponse && !y.reject && y.src == f.id && y.dst == x.src
    ensures y.term == x.term && y.index == LastIndex(f'.log)
  {
    f' := Step(f, x).node;
    BecomesByStep(f, x, f');
    y := AppendResponse(f', x.src, false, LastIndex(f'.log));
  }

  /** One in step takes what the leader sends it: from there on its log is the leader's, before
      that its own. */
  lemma {:induction false} FollowerTakes(l: Node, f: Node, x: Message) returns (f': Node, y: Message)
    requires Contiguous(l.log.entries) && InStep(l, f) && l.prs[f.id].nextIndex <= LastIndex(l.log)
    requires AppendMessage(l, f.id) == Some(Some(x))
    ensures Becomes(f, x, f') && CaughtUpFrom(f.log, f'.log, l.log, x.index + 1)
    ensures y in f'.msgs && y.kind == MsgAppendResponse && !y.reject && y.src == f.id && y.dst == l.id
    ensures y.term == l.term && y.index == LastIndex(l.log)
  {
    var x' := AppendFits(l, f.id);
    TailOfLog(l.log, x.index + 1);
    TakesWhole(f.log, x.entries, l.log, x.index + 1);
    f', y := MatchingAppendTaken(f, x);
    OnlyEntriesCount(f.log, Append(f.log, x.entries).value, f'.log, l.log, x.index + 1);
  }

  lemma {:induction false} OnlyEntriesCount(f: Log, a: Log, b: Log, l: Log, next: Index)
    requires CaughtUpFrom(f, a, l, next) && b == a.(committed := b.committed)
    ensures CaughtUpFrom(f, b, l, next)
  {
    forall k: Index ensures EntryAt(b, k) == EntryAt(a, k) { EntriesOnly(a, b, k); }
    EntriesOnly(a, b, 0);
  }

  /** The leader that is told so knows it. */
  lemma {:induction false} LeaderLearns(l: Node, y: Message) returns (l': Node)
    requires l.role == Leader && y.kind == MsgAppendResponse && !y.reject && y.term == l.term && y.src in l.prs
    requires y.index == LastIndex(l.log)
    ensures Becomes(l, y, l') && l'.prs == l.prs[y.src := Progress(y.index, y.index + 1)]
    ensures l'.log.entries == l.log.entries
  {
    l' := Step(l, y).node;
    BecomesByStep(l, y, l');
  }

  /** Replication of a proposal. The leader logs it and sends an append `x` to each follower that
      is in step; the follower's log from the next index on becomes the leader's, proposal
      included, and before that stays its own; its answer `y` makes the leader know that it has
      everything. */
  lemma {:induction false} ProposalReaches(l: Node, m: Message, l': Node, f: Node)
    returns (x: Message, f': Node, y: Message, l'': Node)
    requires l.role == Leader && m.kind == MsgPropose && m.term <= l.term && |m.entries| > 0 && Becomes(l, m, l')
    requires Contiguous(l.log.entries) && InStep(l, f)
    ensures LastIndex(l'.log) == LastIndex(l.log) + |m.entries|
    ensures x in l'.msgs && x.dst == f.id && Becomes(f, x, f')
    ensures CaughtUpFrom(f.log, f'.log, l'.log, l.prs[f.id].nextIndex)
    ensures y in f'.msgs && y.dst == l.id && Passes([l, l', l''], [m, y])
    ensures l''.prs == l.prs[f.id := Progress(LastIndex(l'.log), LastIndex(l'.log) + 1)]
  {
    x := ProposalSent(l, m, l', f);
    f', y, l'' := Exchange(l', f, x);
    TwoTurns(l, m, l', y, l'');
  }

  lemma {:induction false} TwoTurns(n: Node, a: Message, n': Node, b: Message, n'': Node)
    requires Becomes(n, a, n') && Becomes(n', b, n'')
    ensures Passes([n, n', n''], [a, b])
  {
    BecomesByStep(n, a, n');
    BecomesByStep(n', b, n'');
  }

  /** An append and its answer. */
  lemma {:induction false} Exchange(l: Node, f: Node, x: Message) returns (f': Node, y: Message, l': Node)
    requires l.role == Leader && Contiguous(l.log.entries) && InStep(l, f)
    requires l.prs[f.id].nextIndex <= LastIndex(l.log) && AppendMessage(l, f.id) == Some(Some(x))
    ensures Becomes(f, x, f') && CaughtUpFrom(f.log, f'.log, l.log, x.index + 1)
    ensures y in f'.msgs && y.dst == l.id && Becomes(l, y, l')
    ensures l'.prs == l.prs[f.id := Progress(LastIndex(l.log), LastIndex(l.log) + 1)]
  {
    f', y := FollowerTakes(l, f, x);
    l' := LeaderLearns(l, y);
  }

  lemma {:induction false} ProposalSent(l: Node, m: Message, l': Node, f: Node) returns (x: Message)
    requires l.role == Leader && m.kind == MsgPropose && m.term <= l.term && |m.entries| > 0 && Becomes(l, m, l')
    requires Contiguous(l.log.entries) && InStep(l, f)
    ensures l' == l.(log := l'.log, msgs := l'.msgs) && LastIndex(l'.log) == LastIndex(l.log) + |m.entries|
    ensures Contiguous(l'.log.entries) && InStep(l', f)
    ensures AppendMessage(l', f.id) == Some(Some(x)) && x.dst == f.id && x.index + 1 == l.prs[f.id].nextIndex
    ensures x in l'.msgs
  {
    var p := AfterProposal(l, m, l');
    ProposedLogged(l, m.entries, l.prs[f.id].nextIndex - 1);
    SameFirst(l.log, Proposed(l, m.entries));
    EntriesOnly(Append(l.log, Proposed(l, m.entries)).value, p.log, l.prs[f.id].nextIndex - 1);
    StillInStep(l, p, f);
    x := AppendFits(p, f.id);
    BcastContains(p, f.id, x);
    QueueIgnored(p, l', f);
  }

  lemma {:induction false} QueueIgnored(p: Node, l: Node, f: Node)
    requires l == p.(msgs := l.msgs)
    ensures AppendMessage(l, f.id) == AppendMessage(p, f.id) && (InStep(p, f) ==> InStep(l, f))
  {
  }

  lemma {:induction false} SameFirst(l: Log, es: seq<Entry>)
    requires Contiguous(l.entries) && |es| > 0 && es[0].index == LastIndex(l) + 1 && Append(l, es).Some?
    ensures FirstIndex(Append(l, es).value) == FirstIndex(l)
  {
  }

  lemma {:induction false} BcastContains(p: Node, id: NodeId, x: Message)
    requires BcastAppend(p).Stepped? && id in Peers(p) && AppendMessage(p, id) == Some(Some(x))
    ensures x in BcastAppend(p).node.msgs && x.dst == id
  {
  }

  lemma {:induction false} StillInStep(l: Node, p: Node, f: Node)
    requires Contiguous(l.log.entries) && Contiguous(p.log.entries) && InStep(l, f) && p == l.(log := p.log)
    requires LastIndex(p.log) > LastIndex(l.log) && FirstIndex(p.log) == FirstIndex(l.log)
    requires EntryAt(p.log, l.prs[f.id].nextIndex - 1) == EntryAt(l.log, l.prs[f.id].nextIndex - 1)
    ensures InStep(p, f)
  {
  }

  /** An append that does not match changes no log; the answer makes the leader step back, to the
      end of the follower's log or by at least one entry, and try again from there. */
  lemma {:induction false} RejectionBacksUp(l: Node, f: Node, x: Message) returns (f': Node, y: Message)
    requires l.role == Leader && f.role == Follower && f.term <= l.term && f.id in l.prs
    requires x.kind == MsgAppend && x.src == l.id && x.term == l.term && x.index + 1 == l.prs[f.id].nextIndex
    requires !Matches(f.log, x) && (x.index <= LastIndex(f.log) ==> TermSync(f.log, x.index).Some?)
    ensures Becomes(f, x, f') && f'.log == f.log && y in f'.msgs && y.dst == l.id
    ensures !Step(l, y).Panicked? ==>
              var next := Min(LastIndex(f.log) + 1, x.index);
              && next < l.prs[f.id].nextIndex
              && Step(l, y).node.prs == l.prs[f.id := Progress(l.prs[f.id].matchIndex, next)]
              && (next <= LastIndex(l.log) + 1 ==> AppendsTo(Step(l, y).node, f.id, next - 1))
  {
    f', y := MismatchRefused(f, x);
    if !Step(l, y).Panicked? { StepsBack(l, y); }
  }

  lemma {:induction false} MismatchRefused(f: Node, x: Message) returns (f': Node, y: Message)
    requires f.role == Follower && x.kind == MsgAppend && x.term >= f.term
    requires !Matches(f.log, x) && (x.index <= LastIndex(f.log) ==> TermSync(f.log, x.index).Some?)
    ensures Becomes(f, x, f') && f'.log == f.log && y in f'.msgs && y.kind == MsgAppendResponse && y.reject
    ensures y.src == f.id && y.dst == x.src && y.term == x.term && x.index > 0
    ensures y.index == Min(LastIndex(f.log), x.index - 1)
  {
    f' := Step(f, x).node;
    BecomesByStep(f, x, f');
    y := AppendResponse(f', x.src, true, Min(LastIndex(f.log), x.index - 1));
  }

  lemma {:induction false} StepsBack(l: Node, y: Message)
    requires l.role == Leader && y.kind == MsgAppendResponse && y.reject && y.term == l.term && y.src in l.prs
    requires !Step(l, y).Panicked?
    ensures var was, n' := l.prs[y.src], Step(l, y).node;
            var next := if y.index + 1 < was.nextIndex then y.index + 1 else was.nextIndex - 1;
            && n'.prs == l.prs[y.src := Progress(was.matchIndex, next)]
            && (0 < next <= LastIndex(l.log) + 1 ==> AppendsTo(n', y.src, next - 1))
  {
    var was := l.prs[y.src];
    var next := if y.index + 1 < was.nextIndex then y.index + 1 else was.nextIndex - 1;
    var b := l.(prs := l.prs[y.src := DecreaseNext(was, y.index).value]);
    assert Step(l, y) == HandleAppendResponse(l, y) == SendAppend(b, y.src);
    if 0 < next <= LastIndex(l.log) + 1 { SendsFrom(b, y.src, Step(l, y).node); }
  }

  /** On a tick the leader sends every peer a heartbeat, and a peer that is not in a later term
      follows it and takes over its commit index as far as its own log reaches. */
  lemma {:induction false} CommitTravels(l: Node, m: Message, f: Node)
    returns (l': Node, x: Message, f': Node, y: Message)
    requires l.role == Leader && m.kind == MsgBeat && m.term <= l.term
    requires f.id in Peers(l) && f.role == Follower && f.term <= l.term
    ensures Becomes(l, m, l') && x in l'.msgs && x.dst == f.id && Becomes(f, x, f')
    ensures f'.lead == l.id && f'.term == l.term && f'.log == f.log.(committed := f'.log.committed)
    ensures f'.log.committed == if l.log.committed > f.log.committed then Min(l.log.committed, LastIndex(f.log))
                                else f.log.committed
    ensures y in f'.msgs && y.kind == MsgHeartbeatResponse && y.src == f.id && y.dst == l.id && y.term == l.term
  {
    l', x := BcastHeartbeat(l), HeartbeatMessage(l, f.id);
    BecomesByStep(l, m, l');
    f' := Step(f, x).node;
    BecomesByStep(f, x, f');
    y := Plain(MsgHeartbeatResponse, l.id, f.id, l.term);
    FollowerCommits(f, x);
  }

  /** A peer that answers a heartbeat and lacks entries is sent them; if it is in step its log from
      there on becomes the leader's. */
  lemma {:induction false} BeatCatchesUp(l: Node, y: Message, f: Node) returns (l': Node, x: Message, f': Node)
    requires l.role == Leader && y.kind == MsgHeartbeatResponse && y.src == f.id && y.term == l.term
    requires Contiguous(l.log.entries) && InStep(l, f) && l.prs[f.id].nextIndex <= LastIndex(l.log)
    ensures Becomes(l, y, l') && x in l'.msgs && x.dst == f.id && Becomes(f, x, f')
    ensures CaughtUpFrom(f.log, f'.log, l.log, l.prs[f.id].nextIndex)
  {
    x := AppendFits(l, f.id);
    l' := Send(l, x);
    BecomesByStep(l, y, l');
    var z;
    f', z := FollowerTakes(l, f, x);
  }

  /** A follower hands a proposal to the leader it knows. */
  lemma {:induction false} ProposalForwarded(f: Node, m: Message) returns (f': Node, x: Message)
    requires f.role == Follower && f.lead != NONE && m.kind == MsgPropose && m.term <= f.term
    ensures Becomes(f, m, f') && f' == f.(msgs := f'.msgs)
    ensures x in f'.msgs && x.kind == MsgPropose && x.dst == f.lead && x.entries == m.entries
  {
    f', x := StepFollower(f, m).node, m.(dst := f.lead);
    BecomesByStep(f, m, f');
  }

  // ---- Answers ----

  /** A leader that is given a proposal, or is told by a peer how far its log goes, commits up to `c`
      if and only if `c` is of its term, above what is committed, and the largest index that a
      quorum of the peers has reached. */
  lemma {:induction false} LeaderCommitsIff(l: Node, m: Message, l': Node, c: Index)
    requires l.role == Leader && l.term > 0 && m.term <= l.term && Becomes(l, m, l')
    requires m.kind == MsgPropose || (IsAck(m) && m.term == l.term)
    ensures l'.log.committed == c != l.log.committed <==>
            c > l.log.committed && TermSync(l'.log, c) == Some(l.term) && IsQuorumIndex(l'.prs, Quorum(l'), c)
  {
    var f := if m.src in l.prs then l.(prs := l.prs[m.src := Progress(m.index, m.index + 1)]) else l;
    if m.kind == MsgPropose {
      var p := AfterProposal(l, m, l');
      f := l.(log := Append(l.log, Proposed(l, m.entries)).value);
    } else {
      AckBecomes(l, m, l');
    }
    CommitsIff(f, c);
    assert TermSync(l'.log, c) == TermSync(f.log, c);
  }

  lemma {:induction false} AckBecomes(l: Node, m: Message, l': Node)
    requires l.role == Leader && IsAck(m) && m.term == l.term && Becomes(l, m, l')
    ensures var f := if m.src in l.prs then l.(prs := l.prs[m.src := Progress(m.index, m.index + 1)]) else l;
            && l' == MaybeCommit(f).(msgs := l'.msgs)
            && (m.src in l.prs && m.index < LastIndex(l.log) ==>
                  SendAppend(MaybeCommit(f), m.src) == Stepped(l') && l'.prs[m.src].nextIndex == m.index + 1)
  {
    BecomesByStep(l, m, l');
    var f := if m.src in l.prs then l.(prs := l.prs[m.src := Progress(m.index, m.index + 1)]) else l;
    assert Step(l, m) == HandleAppendResponse(l, m);
    assert LastIndex(MaybeCommit(f).log) == LastIndex(l.log);
  }

  /** Once a quorum of the peers, and nobody beyond, has all of a log that ends in the leader's term,
      the answer that tells so makes the leader commit all of it. */
  lemma {:induction false} LastAckCommits(l: Node, m: Message, l': Node)
    requires l.role == Leader && l.term > 0 && IsAck(m) && m.term == l.term && m.src in l.prs && Becomes(l, m, l')
    requires m.index == LastIndex(l.log) > l.log.committed && TermSync(l.log, m.index) == Some(l.term)
    requires forall p :: p in l.prs && p != m.src ==> l.prs[p].matchIndex <= m.index
    requires |Reached(l.prs, m.index) + {m.src}| >= Quorum(l)
    ensures l'.log.committed == LastIndex(l'.log) == LastIndex(l.log)
  {
    AckBecomes(l, m, l');
    var c := m.index;
    assert Reached(l'.prs, c) == Reached(l.prs, c) + {m.src};
    forall c' | c' > c ensures |Reached(l'.prs, c')| < Quorum(l') {
      assert Reached(l'.prs, c') == {};
    }
    assert |l'.prs| == |l.prs| by { assert l'.prs.Keys == l.prs.Keys; }
    LeaderCommitsIff(l, m, l', c);
  }

  /** An append to the peer that starts behind `index`. */
  ghost predicate AppendsTo(n: Node, p: NodeId, index: Index) {
    exists x {:trigger x in n.msgs} :: x in n.msgs && x.kind == MsgAppend && x.dst == p && x.index == index
  }

  lemma {:induction false} SendsFrom(n: Node, p: NodeId, n': Node)
    requires p in n.prs && 0 < n.prs[p].nextIndex <= LastIndex(n.log) + 1 && SendAppend(n, p) == Stepped(n')
    ensures AppendsTo(n', p, n.prs[p].nextIndex - 1)
  {
    assert AppendMessage(n, p).value.value in n'.msgs;
  }

  /** A peer that says how far its log goes, and lacks entries, is sent the rest. */
  lemma {:induction false} AckSendsRest(l: Node, m: Message, l': Node)
    requires l.role == Leader && IsAck(m) && m.term == l.term && m.src in l.prs && Becomes(l, m, l')
    requires m.index < LastIndex(l.log)
    ensures AppendsTo(l', m.src, m.index)
  {
    AckBecomes(l, m, l');
    var g := MaybeCommit(l.(prs := l.prs[m.src := Progress(m.index, m.index + 1)]));
    SendsFrom(g, m.src, l');
  }

  /** A leader of an earlier term whose append is refused is told, and becomes a follower of the
      later term. */
  lemma {:induction false} OldLeaderStepsDown(l: Node, x: Message, f: Node) returns (f': Node, y: Message)
    requires f.role == Follower && x.kind == MsgAppend && x.src == l.id && x.term == l.term < f.term
    ensures Becomes(f, x, f') && f'.log == f.log && y in f'.msgs && y.dst == l.id
    ensures !Step(l, y).Panicked? ==> Step(l, y).node.role == Follower && Step(l, y).node.term == f.term
  {
    f' := Step(f, x).node;
    BecomesByStep(f, x, f');
    y := AppendResponse(f, l.id, true, 0);
    if !Step(l, y).Panicked? { LaterTermFollows(l, y); }
  }
}
