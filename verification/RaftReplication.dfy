/** Logs without gaps and doubles: when one append keeps a log so, when a node stays so over
    its run, and what follows for the appends on the network and for the commit index. */
module RaftReplication {
  import opened Options
  import opened RaftModel
  import opened RaftElection
  import opened RaftCommit

  // ---- One append ----

  /** The indexes run up one by one. */
  predicate Contiguous(es: seq<Entry>) {
    forall i :: 0 <= i < |es| ==> es[i].index == es[0].index + i
  }

  /** The entry the log holds for an index. */
  function EntryAt(l: Log, i: Index): Option<Entry> {
    var first := FirstIndex(l);
    if first <= i < first + |l.entries| then Some(l.entries[i - first]) else None
  }

  /** The new entries follow or overlap the log, but do not reach its first entry. */
  predicate Joins(l: Log, es: seq<Entry>)
    requires |es| > 0
  {
    l.entries == [] || FirstIndex(l) < es[0].index <= LastIndex(l) + 1
  }

  /** An append leaves a log without gaps or doubles if and only if the new entries follow
      or overlap the log behind its first entry: entries that start at the first index do
      not replace the old ones but are put behind them. */
  lemma {:induction false} AppendContiguousIff(l: Log, es: seq<Entry>)
    requires Contiguous(l.entries) && |es| > 0 && Contiguous(es) && es[0].index > l.committed
    ensures Append(l, es).Some?
    ensures Contiguous(Append(l, es).value.entries) <==> Joins(l, es)
  {
    var es', n := Append(l, es).value.entries, |Append(l, es).value.entries| - |es|;
    assert es'[n] == es[0];
    if Joins(l, es) {
      forall i | 0 <= i < |es'| ensures es'[i].index == es'[0].index + i {
        assert es'[i] == if i < n then l.entries[i] else es[i - n];
      }
    } else {
      assert es'[0] == l.entries[0] && es'[n].index != es'[0].index + n;
    }
  }

  /** Then the log holds the new entries from their first index on, the old ones below it,
      and nothing else. */
  lemma {:induction false} AppendReplaces(l: Log, es: seq<Entry>, i: Index)
    requires Contiguous(l.entries) && |es| > 0 && Contiguous(es) && es[0].index > l.committed && Joins(l, es)
    ensures var l' := Append(l, es).value;
            && l'.committed == l.committed && LastIndex(l') == es[|es| - 1].index
            && EntryAt(l', i) == if i < es[0].index then EntryAt(l, i)
                                 else if i <= es[|es| - 1].index then Some(es[i - es[0].index])
                                 else None
  {
    assert es[|es| - 1].index == es[0].index + |es| - 1;
    if l.entries != [] { assert LastIndex(l) == FirstIndex(l) + |l.entries| - 1; }
  }

  // ---- One step ----

  /** The append matches the log: its predecessor is there with the same term, or there is
      none. */
  predicate Matches(l: Log, m: Message) {
    m.index <= LastIndex(l) && (m.index == 0 || TermSync(l, m.index) == Some(m.logTerm))
  }

  /** The node takes entries from the message. */
  predicate Takes(n: Node, m: Message) {
    && m.kind == MsgAppend && |m.entries| > 0 && Catch(n, m).role != Leader
    && (n.role == Candidate || m.term >= n.term) && Matches(n.log, m)
  }

  /** Entries that a leader adds to its own log. */
  predicate OwnEntries(l: Log, es: seq<Entry>) {
    |es| > 0 && Contiguous(es) && es[0].index == LastIndex(l) + 1
  }

  /** The entries after a step that takes none from its message: as before, or with entries
      of the node's own behind them. */
  ghost predicate Extends(l: Log, l': Log) {
    || l'.entries == l.entries
    || exists es :: OwnEntries(l, es) && Append(l, es).Some? && l'.entries == Append(l, es).value.entries
  }

  lemma {:induction false} LeadingExtends(n: Node)
    requires !BecomeLeader(n).Panicked?
    ensures Extends(n.log, BecomeLeader(n).node.log)
  {
    var last := LastIndex(n.log);
    var es := [Entry(Normal, n.term, last + 1, [])];
    var log := Append(n.log, es).value;
    BcastAppendEffect(n.(role := Leader, lead := n.id, prs := map p | p in n.prs :: Progress(0, last + 1), log := log));
    assert OwnEntries(n.log, es);
  }

  lemma {:induction false} ProposeExtends(n: Node, m: Message)
    requires !Propose(n, m).Panicked?
    ensures Extends(n.log, Propose(n, m).node.log)
  {
    var es := Proposed(n, m.entries);
    var p := n.(log := Append(n.log, es).value);
    BcastAppendEffect(MaybeCommit(p));
    if |es| > 0 { assert OwnEntries(n.log, es); }
  }

  lemma {:induction false} AppendTaken(n: Node, m: Message)
    requires !HandleAppendEntries(n, m).Panicked?
    ensures var l' := HandleAppendEntries(n, m).node.log;
            if m.term >= n.term && Matches(n.log, m) then Append(n.log, m.entries).Some?
            && l'.entries == Append(n.log, m.entries).value.entries
            else l'.entries == n.log.entries
  {
  }

  lemma {:induction false} StepEntries(n: Node, m: Message)
    requires !Step(n, m).Panicked?
    ensures if Takes(n, m) then Append(n.log, m.entries).Some?
            && Step(n, m).node.log.entries == Append(n.log, m.entries).value.entries
            else Extends(n.log, Step(n, m).node.log)
  {
    var c := Catch(n, m);
    match m.kind {
      case MsgHup =>
        if c.role != Leader && Quorum(BecomeCandidate(c)) == 1 { LeadingExtends(BecomeCandidate(c)); }
      case MsgAppend =>
        if c.role == Follower { AppendTaken(c, m); }
        if c.role == Candidate { AppendTaken(BecomeFollower(c, m.term, m.src), m); }
      case MsgRequestVoteResponse =>
        if c.role == Candidate && m.term == c.term {
          var v := c.(votes := c.votes[m.src := !m.reject]);
          if |Granted(v.votes)| >= Quorum(v) { LeadingExtends(v); }
        }
      case MsgPropose => if c.role == Leader { ProposeExtends(c, m); }
      case MsgAppendResponse => if c.role == Leader { AppendResponseReplicates(c, m); }
      case _ =>
    }
  }

  lemma {:induction false} OwnEntriesJoin(l: Log, es: seq<Entry>)
    requires Contiguous(l.entries) && OwnEntries(l, es) && Append(l, es).Some?
    ensures Contiguous(Append(l, es).value.entries)
  {
    AppendContiguousIff(l, es);
  }

  /** A step of a node leaves its log without gaps or doubles if and only if entries that it
      takes from an append join the log. What a leader adds itself always joins. */
  lemma {:induction false} StepContiguousIff(n: Node, m: Message)
    requires Contiguous(n.log.entries) && (m.kind == MsgAppend ==> Contiguous(m.entries)) && !Step(n, m).Panicked?
    ensures Contiguous(Step(n, m).node.log.entries) <==> (Takes(n, m) ==> Joins(n.log, m.entries))
  {
    StepEntries(n, m);
    if Takes(n, m) {
      AppendContiguousIff(n.log, m.entries);
    } else {
      ExtendsContiguous(n.log, Step(n, m).node.log);
    }
  }

  lemma {:induction false} ExtendsContiguous(l: Log, l': Log)
    requires Contiguous(l.entries) && Extends(l, l')
    ensures Contiguous(l'.entries)
  {
    if l'.entries != l.entries {
      var es :| OwnEntries(l, es) && Append(l, es).Some? && l'.entries == Append(l, es).value.entries;
      OwnEntriesJoin(l, es);
    }
  }

  /** Over every run of one node that is handed contiguous appends: its log is without gaps
      and doubles all the time if and only if all entries it takes join its log. */
  lemma {:induction false} LogContiguousIff(ns: seq<Node>, ms: seq<Message>)
    requires Handles(ns, ms) && Contiguous(ns[0].log.entries)
    requires forall k {:trigger ms[k]} :: 0 <= k < |ms| && ms[k].kind == MsgAppend ==> Contiguous(ms[k].entries)
    ensures (forall k {:trigger ns[k]} :: 0 <= k < |ns| ==> Contiguous(ns[k].log.entries)) <==>
            (forall k {:trigger ms[k]} :: 0 <= k < |ms| && Takes(ns[k], ms[k]) ==> Joins(ns[k].log, ms[k].entries))
  {
    if forall k {:trigger ms[k]} :: 0 <= k < |ms| && Takes(ns[k], ms[k]) ==> Joins(ns[k].log, ms[k].entries) {
      forall k | 0 <= k < |ns| ensures Contiguous(ns[k].log.entries) {
        ContiguousUpTo(ns, ms, k);
      }
    } else {
      var k :| 0 <= k < |ms| && Takes(ns[k], ms[k]) && !Joins(ns[k].log, ms[k].entries);
      assert ns[k + 1] == Step(ns[k], ms[k]).node;
      if Contiguous(ns[k].log.entries) { StepContiguousIff(ns[k], ms[k]); }
    }
  }

  lemma {:induction false} ContiguousUpTo(ns: seq<Node>, ms: seq<Message>, k: nat)
    requires Handles(ns, ms) && Contiguous(ns[0].log.entries) && k < |ns|
    requires forall i {:trigger ms[i]} :: 0 <= i < |ms| && ms[i].kind == MsgAppend ==> Contiguous(ms[i].entries)
    requires forall i {:trigger ms[i]} :: 0 <= i < |ms| && Takes(ns[i], ms[i]) ==> Joins(ns[i].log, ms[i].entries)
    ensures Contiguous(ns[k].log.entries)
  {
    if k > 0 {
      ContiguousUpTo(ns, ms, k - 1);
      var m := ms[k - 1];
      JoiningStep(ns[k - 1], m, ns[k]);
    }
  }

  lemma {:induction false} JoiningStep(n: Node, m: Message, n': Node)
    requires Contiguous(n.log.entries) && (m.kind == MsgAppend ==> Contiguous(m.entries)) && !Step(n, m).Panicked?
    requires n' == Step(n, m).node && (Takes(n, m) ==> Joins(n.log, m.entries))
    ensures Contiguous(n'.log.entries)
  {
    StepContiguousIff(n, m);
  }

  /** The same append handled twice by a follower: its first entry is in the log twice. */
  lemma {:induction false} RepeatedAppendDoubles(n: Node)
    requires n.role == Follower && n.term == 1 && n.log == Log([], 0, 0)
    ensures var e := Entry(Normal, 1, 1, []);
            var m := Message(MsgAppend, n.id, 2, 1, 0, 0, [e], 0, false);
            && Step(n, m).Stepped? && Step(n, m).node.log == Log([e], 0, 0)
            && Step(Step(n, m).node, m).Stepped? && Step(Step(n, m).node, m).node.log == Log([e, e], 0, 0)
            && !Contiguous([e, e])
  {
    var e := Entry(Normal, 1, 1, []);
    var m := Message(MsgAppend, n.id, 2, 1, 0, 0, [e], 0, false);
    assert [] + [e] == [e] && [e] + [e] == [e, e];
    assert [e, e][1].index != [e, e][0].index + 1;
    assert Append(n.log, [e]) == Some(Log([e], 0, 0));
    var n1 := Step(n, m).node;
    assert Append(n1.log, [e]) == Some(Log([e, e], 0, 0));
  }

  // ---- Appends on the network ----

  /** The entries of an append are contiguous and start behind its predecessor. */
  predicate SoundAppend(x: Message) {
    Contiguous(x.entries) && (|x.entries| > 0 ==> x.entries[0].index == x.index + 1)
  }

  /** The append carries the end of the log from its index on. */
  predicate SliceOf(l: Log, x: Message) {
    |x.entries| > 0 ==>
      var first, last := FirstIndex(l), LastIndex(l);
      var end := if last - first + 1 < |l.entries| then last - first + 1 else |l.entries|;
      first <= x.index + 1 <= last && x.index + 1 - first <= end && x.entries == l.entries[x.index + 1 - first..end]
  }

  lemma {:induction false} SliceIsSound(l: Log, x: Message)
    requires Contiguous(l.entries) && SliceOf(l, x)
    ensures SoundAppend(x)
  {
  }

  predicate Carries(x: Message) {
    x.kind == MsgAppend || x.kind == MsgHeartbeat
  }

  /** A leader's message tells its term and its commit index. An append goes to a peer from the
      next index it needs on, and names the term of the entry before. */
  predicate Conveys(n: Node, x: Message) {
    && n.role == Leader && x.src == n.id && x.term == n.term && x.commit == n.log.committed
    && (x.kind == MsgAppend ==>
          && SliceOf(n.log, x) && x.logTerm == TermOrZero(n.log, x.index)
          && x.dst in n.prs && n.prs[x.dst].nextIndex == x.index + 1)
  }

  /** The answer to an append goes to its sender. A node that says yes had the predecessor and now
      has a log up to the index it names. One that says no is in a later term, or does not have the
      predecessor and names an index before it up to which its log may match. */
  predicate Answers(n: Node, m: Message, n': Node, x: Message) {
    && m.kind == MsgAppend && x.src == n.id && x.dst == m.src && x.term == n'.term
    && (!x.reject ==> Matches(n.log, m) && x.index == LastIndex(n'.log))
    && (x.reject ==>
          || (m.term < n.term && x.index == 0)
          || (!Matches(n.log, m) && x.index == if m.index > LastIndex(n.log) then LastIndex(n.log) else m.index - 1))
  }

  /** What is new among the messages of `n'`, which has handled `m`: appends and heartbeats of a
      leader, and an answer to `m`. */
  ghost predicate Speaks(n: Node, m: Message, n': Node) {
    && n.msgs <= n'.msgs
    && forall x {:trigger x in n'.msgs} :: x in n'.msgs && x !in n.msgs ==>
         (Carries(x) ==> Conveys(n', x)) && (x.kind == MsgAppendResponse ==> Answers(n, m, n', x))
  }

  lemma {:induction false} MessageConveys(n: Node, p: NodeId)
    requires n.role == Leader && AppendMessage(n, p).Some? && AppendMessage(n, p).value.Some?
    ensures AppendMessage(n, p).value.value.kind == MsgAppend && Conveys(n, AppendMessage(n, p).value.value)
  {
  }

  lemma {:induction false} BcastSpeaks(n: Node, m: Message)
    requires n.role == Leader && BcastAppend(n).Stepped?
    ensures Speaks(n, m, BcastAppend(n).node) && BcastAppend(n).node == n.(msgs := BcastAppend(n).node.msgs)
  {
    var n' := BcastAppend(n).node;
    forall x | x in n'.msgs && x !in n.msgs ensures x.kind == MsgAppend && Conveys(n', x) {
      var p :| p in Peers(n) && AppendMessage(n, p).value.Some? && x == AppendMessage(n, p).value.value;
      MessageConveys(n, p);
    }
  }

  lemma {:induction false} SendSpeaks(n: Node, m: Message, p: NodeId)
    requires n.role == Leader && SendAppend(n, p).Stepped?
    ensures Speaks(n, m, SendAppend(n, p).node) && SendAppend(n, p).node == n.(msgs := SendAppend(n, p).node.msgs)
  {
    if AppendMessage(n, p).value.Some? { MessageConveys(n, p); }
  }

  lemma {:induction false} LeadingSpeaks(n: Node, m: Message)
    requires m.kind != MsgAppend && !BecomeLeader(n).Panicked?
    ensures Speaks(n, m, BecomeLeader(n).node)
  {
    var last := LastIndex(n.log);
    var log := Append(n.log, [Entry(Normal, n.term, last + 1, [])]).value;
    var l := n.(role := Leader, lead := n.id, prs := map p | p in n.prs :: Progress(0, last + 1), log := log);
    assert BecomeLeader(n) == BcastAppend(l) && l.msgs == n.msgs;
    BcastSpeaks(l, m);
    SpeaksAlike(l, n, m, BcastAppend(l).node);
  }

  /** What a leader says does not depend on how it came to it. */
  lemma {:induction false} SpeaksAlike(l: Node, n: Node, m: Message, n': Node)
    requires Speaks(l, m, n') && l.msgs == n.msgs && m.kind != MsgAppend
    ensures Speaks(n, m, n')
  {
  }

  lemma {:induction false} ProposeSpeaks(n: Node, m: Message)
    requires n.role == Leader && m.kind == MsgPropose && !Propose(n, m).Panicked?
    ensures Speaks(n, m, Propose(n, m).node)
  {
    var l := MaybeCommit(n.(log := Append(n.log, Proposed(n, m.entries)).value));
    BcastSpeaks(l, m);
    SpeaksAlike(l, n, m, BcastAppend(l).node);
  }

  lemma {:induction false} AppendResponseSpeaks(n: Node, m: Message)
    requires n.role == Leader && m.kind == MsgAppendResponse && !HandleAppendResponse(n, m).Panicked?
    ensures Speaks(n, m, HandleAppendResponse(n, m).node)
  {
    if m.term >= n.term && m.reject && m.src in n.prs {
      var f := n.(prs := n.prs[m.src := DecreaseNext(n.prs[m.src], m.index).value]);
      SendSpeaks(f, m, m.src);
      SpeaksAlike(f, n, m, SendAppend(f, m.src).node);
    } else if m.term >= n.term && !m.reject {
      var f := if m.src in n.prs then n.(prs := n.prs[m.src := Progress(m.index, m.index + 1)]) else n;
      var g := MaybeCommit(f);
      if m.src in g.prs && g.prs[m.src].nextIndex <= LastIndex(g.log) {
        SendSpeaks(g, m, m.src);
        SpeaksAlike(g, n, m, SendAppend(g, m.src).node);
      }
    }
  }

  lemma {:induction false} AppendHandlerSpeaks(n: Node, m: Message)
    requires m.kind == MsgAppend && !HandleAppendEntries(n, m).Panicked?
    ensures Speaks(n, m, HandleAppendEntries(n, m).node)
  {
  }

  lemma {:induction false} CampaignSpeaks(n: Node, m: Message)
    requires m.kind == MsgHup && !Campaign(n).Panicked?
    ensures Speaks(n, m, Campaign(n).node)
  {
    var c := BecomeCandidate(n);
    if Quorum(c) == 1 {
      LeadingSpeaks(c, m);
      SpeaksAlike(c, n, m, BecomeLeader(c).node);
    }
  }

  lemma {:induction false} FollowerSpeaks(n: Node, m: Message)
    requires n.role == Follower && !StepFollower(n, m).Panicked?
    ensures Speaks(n, m, StepFollower(n, m).node)
  {
    match m.kind
    case MsgHup => CampaignSpeaks(n, m);
    case MsgAppend => AppendHandlerSpeaks(n, m);
    case _ =>
  }

  lemma {:induction false} VoteResponseSpeaks(n: Node, m: Message)
    requires m.kind == MsgRequestVoteResponse && !HandleRequestVoteResponse(n, m).Panicked?
    ensures Speaks(n, m, HandleRequestVoteResponse(n, m).node)
  {
    var v := n.(votes := n.votes[m.src := !m.reject]);
    if m.term == n.term && n.role == Candidate && |Granted(v.votes)| >= Quorum(v) {
      LeadingSpeaks(v, m);
      SpeaksAlike(v, n, m, BecomeLeader(v).node);
    }
  }

  lemma {:induction false} CandidateSpeaks(n: Node, m: Message)
    requires n.role == Candidate && !StepCandidate(n, m).Panicked?
    ensures Speaks(n, m, StepCandidate(n, m).node)
  {
    match m.kind
    case MsgHup => CampaignSpeaks(n, m);
    case MsgAppend => AppendHandlerSpeaks(BecomeFollower(n, m.term, m.src), m);
    case MsgRequestVoteResponse => VoteResponseSpeaks(n, m);
    case _ =>
  }

  lemma {:induction false} LeaderSpeaks(n: Node, m: Message)
    requires n.role == Leader && !StepLeader(n, m).Panicked?
    ensures Speaks(n, m, StepLeader(n, m).node)
  {
    match m.kind
    case MsgPropose => ProposeSpeaks(n, m);
    case MsgAppendResponse => AppendResponseSpeaks(n, m);
    case MsgHeartbeatResponse =>
      if m.term >= n.term && m.src in n.prs && n.prs[m.src].nextIndex <= LastIndex(n.log) { SendSpeaks(n, m, m.src); }
    case _ =>
  }

  /** Everything a step says to other nodes about logs. */
  lemma {:induction false} StepSpeaks(n: Node, m: Message)
    requires !Step(n, m).Panicked?
    ensures Speaks(n, m, Step(n, m).node)
  {
    var c := Catch(n, m);
    match c.role
    case Follower => FollowerSpeaks(c, m);
    case Candidate => CandidateSpeaks(c, m);
    case Leader => LeaderSpeaks(c, m);
  }

  // ---- The whole cluster ----

  predicate SoundLog(n: Node) {
    Contiguous(n.log.entries) && InBounds(n)
  }

  /** Every log is without gaps and doubles with the commit index inside it, and so is what
      every append on the network carries. */
  ghost predicate Sound(c: Cluster) {
    && (forall i {:trigger c.nodes[i]} :: i in c.nodes ==> SoundLog(c.nodes[i]) && c.nodes[i].msgs <= c.net)
    && (forall x {:trigger x in c.net} :: x in c.net && x.kind == MsgAppend ==> SoundAppend(x))
  }

  /** The node takes entries that reach back to the first entry of its log, or beyond. */
  predicate Rewinds(n: Node, m: Message) {
    Takes(n, m) && n.log.entries != [] && m.index < FirstIndex(n.log)
  }

  ghost predicate RewindsAt(c: Cluster, e: Event) {
    Target(e) in c.nodes && Rewinds(c.nodes[Target(e)], Input(e))
  }

  lemma {:induction false} JoinsUnlessRewinds(n: Node, m: Message)
    requires Takes(n, m) && SoundAppend(m)
    ensures Joins(n.log, m.entries) <==> !Rewinds(n, m)
  {
  }

  lemma {:induction false} HandedSound(c: Cluster, e: Event)
    requires Sound(c) && CanHappen(c, e)
    ensures Input(e).kind == MsgAppend ==> SoundAppend(Input(e))
    ensures WellFormedAppend(Input(e))
  {
  }

  lemma {:induction false} HappenSound(c: Cluster, e: Event)
    requires Sound(c) && CanHappen(c, e) && !RewindsAt(c, e)
    ensures Sound(Happen(c, e)) && Advances(c.nodes[Target(e)], NodeAfter(c, e))
  {
    var n, m, n' := c.nodes[Target(e)], Input(e), NodeAfter(c, e);
    assert SoundLog(n);
    HandedSound(c, e);
    StepAdvances(n, m);
    if Takes(n, m) { JoinsUnlessRewinds(n, m); }
    StepContiguousIff(n, m);
    StepSpeaks(n, m);
    NewNet(c, n, m, n');
  }

  lemma {:induction false} NewNet(c: Cluster, n: Node, m: Message, n': Node)
    requires Sound(c) && n.msgs <= c.net && Speaks(n, m, n') && Contiguous(n'.log.entries)
    ensures forall x {:trigger x in c.net + n'.msgs} :: x in c.net + n'.msgs && x.kind == MsgAppend ==> SoundAppend(x)
  {
    forall x | x in c.net + n'.msgs && x.kind == MsgAppend ensures SoundAppend(x) {
      if x !in c.net { SliceIsSound(n'.log, x); }
    }
  }

  /** Nodes start with logs without gaps and doubles and a commit index inside them. */
  ghost predicate StartsSound(r: Run)
    requires Possible(r)
  {
    forall i :: i in r.states[0].nodes ==>
      Contiguous(r.states[0].nodes[i].log.entries)
      && r.states[0].nodes[i].log.committed <= LastIndex(r.states[0].nodes[i].log)
  }

  lemma {:induction false} SoundUpTo(r: Run, j: nat)
    requires Possible(r) && StartsSound(r) && j < |r.states|
    requires forall k {:trigger r.events[k]} :: 0 <= k < j ==> !RewindsAt(r.states[k], r.events[k])
    ensures Sound(r.states[j])
    decreases j
  {
    if j > 0 {
      SoundUpTo(r, j - 1);
      assert Follows(r.states[j - 1], r.events[j - 1], r.states[j]);
      HappenSound(r.states[j - 1], r.events[j - 1]);
    }
  }

  ghost predicate AllContiguous(c: Cluster) {
    forall i :: i in c.nodes ==> Contiguous(c.nodes[i].log.entries)
  }

  /** A rewinding append breaks the log it is taken into. */
  lemma {:induction false} RewindBreaks(r: Run, k: nat)
    requires Possible(r) && StartsSound(r) && k < |r.events| && RewindsAt(r.states[k], r.events[k])
    requires forall i {:trigger r.events[i]} :: 0 <= i < k ==> !RewindsAt(r.states[i], r.events[i])
    ensures !AllContiguous(r.states[k + 1])
  {
    SoundUpTo(r, k);
    var c, e := r.states[k], r.events[k];
    assert Follows(c, e, r.states[k + 1]);
    var n := c.nodes[Target(e)];
    assert SoundLog(n);
    HandedSound(c, e);
    JoinsUnlessRewinds(n, Input(e));
    StepContiguousIff(n, Input(e));
    assert r.states[k + 1].nodes[Target(e)] == NodeAfter(c, e);
  }

  lemma {:induction false} FirstRewind(r: Run, k: nat) returns (f: nat)
    requires Possible(r) && k < |r.events| && RewindsAt(r.states[k], r.events[k])
    ensures f <= k && RewindsAt(r.states[f], r.events[f])
    ensures forall i {:trigger r.events[i]} :: 0 <= i < f ==> !RewindsAt(r.states[i], r.events[i])
    decreases k
  {
    if i :| 0 <= i < k && RewindsAt(r.states[i], r.events[i]) {
      f := FirstRewind(r, i);
    } else {
      f := k;
    }
  }

  /** No node ever takes entries that reach back to the first entry of its log. */
  ghost predicate NeverRewinds(r: Run)
    requires Possible(r)
  {
    forall x {:trigger r.events[x]} :: 0 <= x < |r.events| ==> !RewindsAt(r.states[x], r.events[x])
  }

  /** Over every run of the cluster, with loss, delay, reordering and duplication: all logs
      stay without gaps and doubles if and only if no node ever takes entries that reach
      back to the first entry of its log. */
  lemma {:induction false} LogsContiguousIff(r: Run)
    requires Possible(r) && StartsSound(r)
    ensures (forall j {:trigger r.states[j]} :: 0 <= j < |r.states| ==> AllContiguous(r.states[j])) <==>
            NeverRewinds(r)
  {
    if NeverRewinds(r) {
      forall j | 0 <= j < |r.states| ensures AllContiguous(r.states[j]) {
        SoundUpTo(r, j);
      }
    } else {
      var k :| 0 <= k < |r.events| && RewindsAt(r.states[k], r.events[k]);
      var f := FirstRewind(r, k);
      RewindBreaks(r, f);
      assert !AllContiguous(r.states[f + 1]);
    }
  }

  /** Then every append on the network is well formed. */
  lemma {:induction false} AppendsSoundOverRun(r: Run, k: nat, x: Message)
    requires Possible(r) && StartsSound(r) && NeverRewinds(r) && k < |r.states| && x in r.states[k].net
    requires x.kind == MsgAppend
    ensures SoundAppend(x) && WellFormedAppend(x)
  {
    SoundUpTo(r, k);
  }

  lemma {:induction false} CommitGrows(r: Run, i: NodeId, k: nat)
    requires Possible(r) && StartsSound(r) && NeverRewinds(r) && k < |r.events| && i in r.states[k].nodes
    ensures i in r.states[k + 1].nodes && r.states[k].nodes[i].log.committed <= r.states[k + 1].nodes[i].log.committed
  {
    SoundUpTo(r, k);
    var c, e := r.states[k], r.events[k];
    assert Follows(c, e, r.states[k + 1]);
    HappenSound(c, e);
    assert r.states[k + 1].nodes == c.nodes[Target(e) := NodeAfter(c, e)];
  }

  lemma {:induction false} CommitInside(r: Run, i: NodeId, k: nat)
    requires Possible(r) && StartsSound(r) && NeverRewinds(r) && k < |r.states| && i in r.states[k].nodes
    ensures r.states[k].nodes[i].log.committed <= LastIndex(r.states[k].nodes[i].log)
  {
    SoundUpTo(r, k);
    assert SoundLog(r.states[k].nodes[i]);
  }

  lemma {:induction false} CommitMonotone(r: Run, i: NodeId, j: nat, k: nat)
    requires Possible(r) && StartsSound(r) && NeverRewinds(r) && j <= k < |r.states| && i in r.states[j].nodes
    ensures i in r.states[k].nodes && r.states[j].nodes[i].log.committed <= r.states[k].nodes[i].log.committed
    decreases k - j
  {
    if j < k {
      CommitMonotone(r, i, j, k - 1);
      CommitGrows(r, i, k - 1);
    }
  }

  /** And at every node of the cluster, whatever it is handed from the network, the commit
      index never decreases and never passes the last index of the log. */
  lemma {:induction false} CommitBoundsOverRun(r: Run, i: NodeId, j: nat, k: nat)
    requires Possible(r) && StartsSound(r) && NeverRewinds(r) && j <= k < |r.states| && i in r.states[j].nodes
    ensures i in r.states[k].nodes
    ensures r.states[j].nodes[i].log.committed <= r.states[k].nodes[i].log.committed
    ensures r.states[k].nodes[i].log.committed <= LastIndex(r.states[k].nodes[i].log)
  {
    CommitMonotone(r, i, j, k);
    CommitInside(r, i, k);
  }
}
