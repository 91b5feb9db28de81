/** One Raft node as a value: its log, its progress table, and what every message
    does to it. */
module RaftModel {
  import opened Options
  import opened FiniteSets

  type NodeId = nat
  type Term = nat
  type Index = nat

  /** No node. */
  const NONE: NodeId := 0

  // ---- The log ----

  datatype EntryType = Normal | ConfChange

  datatype Entry = Entry(entryType: EntryType, term: Term, index: Index, data: seq<int>)

  /** The log without snapshots: entries kept in memory, and the index up to which
      entries were already stored when there are none. */
  datatype Log = Log(entries: seq<Entry>, committed: Index, stabled: Index)

  function LastIndex(l: Log): Index {
    if |l.entries| > 0 then l.entries[|l.entries| - 1].index else l.stabled
  }

  function FirstIndex(l: Log): Index {
    if |l.entries| > 0 then l.entries[0].index else l.stabled + 1
  }

  /** The term of an index that is still in memory. */
  function TermSync(l: Log, i: Index): Option<Term> {
    if i == 0 then Some(0)
    else
      var first := FirstIndex(l);
      if i < first || i > LastIndex(l) then None
      else if i - first < |l.entries| then Some(l.entries[i - first].term)
      else None
  }

  function TermOrZero(l: Log, i: Index): Term {
    match TermSync(l, i)
    case Some(t) => t
    case None => 0
  }

  /** Appends, cutting off what the new entries overlap. `None`: the append reaches
      into committed entries and the node panics. */
  function Append(l: Log, es: seq<Entry>): Option<Log> {
    if |es| == 0 then Some(l)
    else
      var after := es[0].index;
      if after <= l.committed then None
      else
        var first := FirstIndex(l);
        var kept := if after > first && after - first < |l.entries| then l.entries[..after - first] else l.entries;
        Some(l.(entries := kept + es))
  }

  // ---- Messages and nodes ----

  datatype MessageType =
    | MsgHup | MsgBeat | MsgPropose
    | MsgAppend | MsgAppendResponse
    | MsgRequestVote | MsgRequestVoteResponse
    | MsgHeartbeat | MsgHeartbeatResponse

  datatype Message = Message(
    kind: MessageType, dst: NodeId, src: NodeId, term: Term,
    logTerm: Term, index: Index, entries: seq<Entry>, commit: Index, reject: bool)

  function Plain(kind: MessageType, dst: NodeId, src: NodeId, term: Term): Message {
    Message(kind, dst, src, term, 0, 0, [], 0, false)
  }

  datatype Role = Follower | Candidate | Leader

  datatype Progress = Progress(matchIndex: Index, nextIndex: Index)

  datatype Node = Node(
    id: NodeId, term: Term, vote: NodeId, role: Role,
    votes: map<NodeId, bool>, prs: map<NodeId, Progress>,
    lead: NodeId, log: Log, msgs: set<Message>)

  /** How handling a message ends: normally, with an error returned, or in a panic. */
  datatype Outcome = Stepped(node: Node) | Failed(node: Node) | Panicked

  function Quorum(n: Node): nat {
    (|n.prs| + 1) / 2 + 1
  }

  function Send(n: Node, m: Message): Node {
    n.(msgs := n.msgs + {m})
  }

  // ---- Changing role ----

  function BecomeFollower(n: Node, term: Term, lead: NodeId): Node {
    n.(term := term, lead := lead, role := Follower, vote := NONE, votes := map[])
  }

  function BecomeCandidate(n: Node): Node {
    n.(term := n.term + 1, role := Candidate, vote := n.id, votes := map[n.id := true], lead := NONE)
  }

  /** The append message for a peer; `None` within `Some`: nothing to send; outer
      `None`: an index falls below the kept log and the node panics. */
  function AppendMessage(n: Node, dst: NodeId): Option<Option<Message>> {
    if dst !in n.prs then Some(None)
    else
      var next, last := n.prs[dst].nextIndex, LastIndex(n.log);
      if next > last + 1 then Some(None)
      else if next > last then Some(Some(AppendWith(n, dst, next, [])))
      else
        var first := FirstIndex(n.log);
        if next < first then None
        else
          var end := if last - first + 1 < |n.log.entries| then last - first + 1 else |n.log.entries|;
          if next - first > end || next == 0 then None
          else Some(Some(AppendWith(n, dst, next, n.log.entries[next - first..end])))
  }

  function AppendWith(n: Node, dst: NodeId, next: Index, es: seq<Entry>): Message
    requires next > 0
  {
    Message(MsgAppend, dst, n.id, n.term, TermOrZero(n.log, next - 1), next - 1, es, n.log.committed, false)
  }

  function SendAppend(n: Node, dst: NodeId): Outcome {
    match AppendMessage(n, dst)
    case None => Panicked
    case Some(None) => Stepped(n)
    case Some(Some(m)) => Stepped(Send(n, m))
  }

  function Peers(n: Node): set<NodeId> {
    n.prs.Keys - {n.id}
  }

  function BcastAppend(n: Node): Outcome {
    if exists p :: p in Peers(n) && AppendMessage(n, p).None? then Panicked
    else
      Stepped(n.(msgs := n.msgs + set p | p in Peers(n) && AppendMessage(n, p).value.Some? ::
                 AppendMessage(n, p).value.value))
  }

  function HeartbeatMessage(n: Node, dst: NodeId): Message {
    Plain(MsgHeartbeat, dst, n.id, n.term).(commit := n.log.committed)
  }

  function BcastHeartbeat(n: Node): Node {
    n.(msgs := n.msgs + set p | p in Peers(n) :: HeartbeatMessage(n, p))
  }

  function BecomeLeader(n: Node): Outcome {
    var last := LastIndex(n.log);
    var reset := map p | p in n.prs :: Progress(0, last + 1);
    match Append(n.log, [Entry(Normal, n.term, last + 1, [])])
    case None => Panicked
    case Some(log) => BcastAppend(n.(role := Leader, lead := n.id, prs := reset, log := log))
  }

  function VoteRequest(n: Node, dst: NodeId, lastTerm: Term): Message {
    Message(MsgRequestVote, dst, n.id, n.term, lastTerm, LastIndex(n.log), [], 0, false)
  }

  function Campaign(n: Node): Outcome {
    var c := BecomeCandidate(n);
    if Quorum(c) == 1 then BecomeLeader(c)
    else
      match TermSync(c.log, LastIndex(c.log))
      case None => Failed(c)
      case Some(lastTerm) => Stepped(c.(msgs := c.msgs + set p | p in Peers(c) :: VoteRequest(c, p, lastTerm)))
  }

  // ---- Handlers ----

  function VoteResponse(n: Node, dst: NodeId, reject: bool): Message {
    Plain(MsgRequestVoteResponse, dst, n.id, n.term).(reject := reject)
  }

  function HandleRequestVote(n: Node, m: Message): Node {
    if m.term < n.term then Send(n, VoteResponse(n, m.src, true))
    else
      var v := if m.term > n.term then BecomeFollower(n, m.term, NONE) else n;
      var canVote := v.vote == NONE || v.vote == m.src;
      var lastIndex := LastIndex(v.log);
      var lastTerm := TermOrZero(v.log, lastIndex);
      var logOk := m.logTerm > lastTerm || (m.logTerm == lastTerm && m.index >= lastIndex);
      if canVote && logOk then
        var g := v.(vote := m.src);
        Send(g, VoteResponse(g, m.src, false))
      else Send(v, VoteResponse(v, m.src, true))
  }

  function Granted(votes: map<NodeId, bool>): set<NodeId> {
    set p | p in votes && votes[p]
  }

  function Rejected(votes: map<NodeId, bool>): set<NodeId> {
    set p | p in votes && !votes[p]
  }

  function HandleRequestVoteResponse(n: Node, m: Message): Outcome {
    if m.term != n.term || n.role != Candidate then Stepped(n)
    else
      var v := n.(votes := n.votes[m.src := !m.reject]);
      if |Granted(v.votes)| >= Quorum(v) then BecomeLeader(v)
      else if |Rejected(v.votes)| >= Quorum(v) then Stepped(BecomeFollower(v, v.term, NONE))
      else Stepped(v)
  }

  function AppendResponse(n: Node, dst: NodeId, reject: bool, index: Index): Message {
    Plain(MsgAppendResponse, dst, n.id, n.term).(reject := reject, index := index)
  }

  /** Takes over the sender's commit index as far as the own log reaches. */
  function AdvanceCommit(l: Log, commit: Index): Log {
    if commit > l.committed then l.(committed := if commit < LastIndex(l) then commit else LastIndex(l)) else l
  }

  function HandleAppendEntries(n: Node, m: Message): Outcome {
    if m.term < n.term then Stepped(Send(n, AppendResponse(n, m.src, true, 0)))
    else
      var f := n.(term := m.term, lead := m.src);
      if m.index > LastIndex(f.log) then Stepped(Send(f, AppendResponse(f, m.src, true, LastIndex(f.log))))
      else if m.index > 0 && TermSync(f.log, m.index).None? then Failed(f)
      else if m.index > 0 && TermSync(f.log, m.index).value != m.logTerm then
        Stepped(Send(f, AppendResponse(f, m.src, true, m.index - 1)))
      else
        match Append(f.log, m.entries)
        case None => Panicked
        case Some(log) =>
          var g := f.(log := AdvanceCommit(log, m.commit));
          Stepped(Send(g, AppendResponse(g, m.src, false, LastIndex(g.log))))
  }

  function HandleHeartbeat(n: Node, m: Message): Node {
    if m.term < n.term then n
    else
      var f := n.(term := m.term, lead := m.src, log := AdvanceCommit(n.log, m.commit));
      Send(f, Plain(MsgHeartbeatResponse, m.src, f.id, f.term))
  }

  /** The peers known to have the log up to `c`. */
  function Reached(prs: map<NodeId, Progress>, c: Index): set<NodeId> {
    set p | p in prs && prs[p].matchIndex >= c
  }

  /** `c` is the largest index that at least `q` peers have reached. */
  ghost predicate IsQuorumIndex(prs: map<NodeId, Progress>, q: nat, c: Index) {
    |Reached(prs, c)| >= q && forall c' :: c' > c ==> |Reached(prs, c')| < q
  }

  lemma {:induction false} ReachedShrinks(prs: map<NodeId, Progress>, c: Index, c': Index)
    requires c <= c'
    ensures Reached(prs, c') <= Reached(prs, c) && |Reached(prs, c')| <= |Reached(prs, c)| <= |prs|
  {
    SubsetSize(Reached(prs, c'), Reached(prs, c));
    SubsetSize(Reached(prs, c), prs.Keys);
  }

  lemma {:induction false} MatchBound(prs: map<NodeId, Progress>, ids: set<NodeId>) returns (b: Index)
    requires ids <= prs.Keys
    ensures forall p :: p in ids ==> prs[p].matchIndex <= b
    decreases ids
  {
    if ids == {} {
      b := 0;
    } else {
      var p :| p in ids;
      b := MatchBound(prs, ids - {p});
      if prs[p].matchIndex > b { b := prs[p].matchIndex; }
    }
  }

  lemma {:induction false} QuorumIndexExists(prs: map<NodeId, Progress>, q: nat) returns (c: Index)
    requires 0 < q <= |prs|
    ensures IsQuorumIndex(prs, q, c)
  {
    c := MatchBound(prs, prs.Keys);
    assert Reached(prs, c + 1) == {} && Reached(prs, 0) == prs.Keys;
    while |Reached(prs, c)| < q
      invariant |Reached(prs, c + 1)| < q
      decreases c
    {
      c := c - 1;
    }
    forall c' | c' > c ensures |Reached(prs, c')| < q {
      ReachedShrinks(prs, c + 1, c');
    }
  }

  /** The index that a quorum of peers has reached. */
  ghost function QuorumIndex(prs: map<NodeId, Progress>, q: nat): (c: Index)
    requires 0 < q <= |prs|
    ensures IsQuorumIndex(prs, q, c)
  {
    assert exists c :: IsQuorumIndex(prs, q, c) by {
      var c := QuorumIndexExists(prs, q);
    }
    var c :| IsQuorumIndex(prs, q, c);
    c
  }

  /** Advances the commit index to an entry of the own term that a quorum of the
      other members has. */
  ghost function MaybeCommit(n: Node): Node {
    if n.role != Leader || |n.prs| < Quorum(n) then n
    else
      var c := QuorumIndex(n.prs, Quorum(n));
      if c > n.log.committed && TermOrZero(n.log, c) == n.term then n.(log := n.log.(committed := c)) else n
  }

  /** `None`: the next index would fall below zero and the node panics. */
  function DecreaseNext(p: Progress, rejected: Index): Option<Progress> {
    if p.nextIndex > 1 && p.nextIndex > rejected + 1 then Some(p.(nextIndex := rejected + 1))
    else if p.nextIndex == 0 then None
    else Some(p.(nextIndex := p.nextIndex - 1))
  }

  ghost function HandleAppendResponse(n: Node, m: Message): Outcome {
    if m.term < n.term then Stepped(n)
    else if m.reject then
      if m.src !in n.prs then Stepped(n)
      else
        match DecreaseNext(n.prs[m.src], m.index)
        case None => Panicked
        case Some(p) => SendAppend(n.(prs := n.prs[m.src := p]), m.src)
    else
      var f := if m.src in n.prs then n.(prs := n.prs[m.src := Progress(m.index, m.index + 1)]) else n;
      var g := MaybeCommit(f);
      if m.src in g.prs && g.prs[m.src].nextIndex <= LastIndex(g.log) then SendAppend(g, m.src) else Stepped(g)
  }

  function HandleHeartbeatResponse(n: Node, m: Message): Outcome {
    if m.term < n.term || m.src !in n.prs || n.prs[m.src].nextIndex > LastIndex(n.log) then Stepped(n)
    else SendAppend(n, m.src)
  }

  function Proposed(n: Node, es: seq<Entry>): seq<Entry> {
    seq(|es|, i requires 0 <= i < |es| => es[i].(term := n.term, index := LastIndex(n.log) + 1 + i))
  }

  ghost function Propose(n: Node, m: Message): Outcome {
    match Append(n.log, Proposed(n, m.entries))
    case None => Panicked
    case Some(log) => BcastAppend(MaybeCommit(n.(log := log)))
  }

  // ---- Dispatch ----

  function StepFollower(n: Node, m: Message): Outcome {
    match m.kind
    case MsgHup => Campaign(n)
    case MsgBeat => Stepped(if n.lead != NONE then Send(n, m.(dst := n.lead)) else n)
    case MsgPropose => Stepped(if n.lead != NONE then Send(n, m.(dst := n.lead)) else n)
    case MsgAppend => HandleAppendEntries(n, m)
    case MsgHeartbeat => Stepped(HandleHeartbeat(n, m))
    case MsgRequestVote => Stepped(HandleRequestVote(n, m))
    case _ => Stepped(n)
  }

  function StepCandidate(n: Node, m: Message): Outcome {
    match m.kind
    case MsgHup => Campaign(n)
    case MsgAppend => HandleAppendEntries(BecomeFollower(n, m.term, m.src), m)
    case MsgHeartbeat => Stepped(HandleHeartbeat(BecomeFollower(n, m.term, m.src), m))
    case MsgRequestVote => Stepped(HandleRequestVote(n, m))
    case MsgRequestVoteResponse => HandleRequestVoteResponse(n, m)
    case _ => Stepped(n)
  }

  ghost function StepLeader(n: Node, m: Message): Outcome {
    match m.kind
    case MsgBeat => Stepped(BcastHeartbeat(n))
    case MsgPropose => Propose(n, m)
    case MsgAppendResponse => HandleAppendResponse(n, m)
    case MsgHeartbeatResponse => HandleHeartbeatResponse(n, m)
    case MsgRequestVote => Stepped(HandleRequestVote(n, m))
    case _ => Stepped(n)
  }

  /** A larger term makes any node a follower before it looks at the message. */
  function Catch(n: Node, m: Message): Node {
    if m.term > n.term then
      BecomeFollower(n, m.term, if m.kind == MsgRequestVote || m.kind == MsgAppend then NONE else m.src)
    else n
  }

  ghost function Step(n: Node, m: Message): Outcome {
    var c := Catch(n, m);
    match c.role
    case Follower => StepFollower(c, m)
    case Candidate => StepCandidate(c, m)
    case Leader => StepLeader(c, m)
  }
}
