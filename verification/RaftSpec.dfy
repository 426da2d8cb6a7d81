/** What one Raft node does (`imustore/raft/node.py`), as functions on the node's state.

    `Node` holds every field of the source's node, its log, the term and vote last saved, and
    what its recorder has applied. Messages wait in `outbox`, as in the source. Timers and the
    random generator are absent: a timeout may fire at any moment. */
module RaftSpec {
  import opened Prelude
  import opened RaftMessages
  import opened RaftLog

  datatype Role = Follower | Candidate | Leader

  // One call of the state machine's `apply`.
  datatype Application = Application(index: nat, command: Command)

  type Position = x: int | 1 <= x witness 1

  datatype Node = Node(
    id: NodeId,
    peers: seq<NodeId>,
    role: Role,
    leaderId: Option<NodeId>,
    term: nat,
    votedFor: Option<NodeId>,
    savedTerm: nat,
    savedVote: Option<NodeId>,
    log: seq<LogEntry>,
    commitIndex: nat,
    lastApplied: nat,
    votes: set<NodeId>,
    nextIndex: map<NodeId, Position>,
    matchIndex: map<NodeId, nat>,
    applied: seq<Application>,
    outbox: seq<Envelope>)

  // A node made from a saved log and an already applied prefix (`RaftNode.__init__`).
  function Fresh(id: NodeId, peers: seq<NodeId>, term: nat, vote: Option<NodeId>,
                 log: seq<LogEntry>, applied: seq<Application>): Node
  {
    Node(id, peers, Follower, None, term, vote, term, vote, log, 0, AppliedIndex(applied), {}, map[], map[], applied,
        [])
  }

  // `Recorder.applied_index`.
  function AppliedIndex(applied: seq<Application>): nat {
    if applied == [] then 0 else applied[|applied| - 1].index
  }

  predicate HasMajority(n: Node, count: nat) {
    count >= (|n.peers| + 1) / 2 + 1
  }

  function Persist(n: Node): Node {
    n.(savedTerm := n.term, savedVote := n.votedFor)
  }

  function Send(n: Node, dst: NodeId, body: Body): Node {
    n.(outbox := n.outbox + [Envelope(n.id, dst, body)])
  }

  // ----- replication helpers -----

  function Next(n: Node, peer: NodeId): Position {
    if peer in n.nextIndex then n.nextIndex[peer] else 1
  }

  function Match(n: Node, peer: NodeId): nat {
    if peer in n.matchIndex then n.matchIndex[peer] else 0
  }

  function AppendTo(n: Node, peer: NodeId): Envelope {
    var prev := Next(n, peer) - 1;
    Envelope(n.id, peer, AppendEntries(n.term, n.id, prev, TermAt(n.log, prev),
                                       EntriesFrom(n.log, prev + 1), n.commitIndex))
  }

  function SendAppendTo(n: Node, peer: NodeId): Node {
    n.(outbox := n.outbox + [AppendTo(n, peer)])
  }

  function BroadcastAppend(n: Node): Node {
    n.(outbox := n.outbox + seq(|n.peers|, i requires 0 <= i < |n.peers| => AppendTo(n, n.peers[i])))
  }

  // The peers known to hold the log up to `index`.
  function Holders(n: Node, index: nat): set<NodeId> {
    set p | p in n.peers && Match(n, p) >= index
  }

  predicate Committable(n: Node, index: nat) {
    TermAt(n.log, index) == n.term && HasMajority(n, 1 + |Holders(n, index)|)
  }

  // The largest committable index above the commit index, searched downwards from `index`.
  function CommitTarget(n: Node, index: nat): (c: nat)
    ensures n.commitIndex <= c
    ensures c <= Max(index, n.commitIndex)
    ensures c > n.commitIndex ==> Committable(n, c)
    ensures forall i :: c < i <= index ==> !Committable(n, i)
  {
    if index <= n.commitIndex then n.commitIndex
    else if Committable(n, index) then index
    else CommitTarget(n, index - 1)
  }

  // The state machine fed with the log's commands up to index `k`, in order.
  function ApplyUpTo(n: Node, k: nat): Node
    requires n.lastApplied <= k <= |n.log|
  {
    n.(lastApplied := k,
       applied := n.applied + seq(k - n.lastApplied, i requires 0 <= i < k - n.lastApplied =>
         Application(n.lastApplied + i + 1, n.log[n.lastApplied + i].command)))
  }

  function ApplyCommitted(n: Node): Node
    requires n.commitIndex <= |n.log|
  {
    if n.lastApplied >= n.commitIndex then n else ApplyUpTo(n, n.commitIndex)
  }

  function AdvanceCommit(n: Node): Node
    requires n.commitIndex <= |n.log|
  {
    var c := CommitTarget(n, |n.log|);
    if c > n.commitIndex then ApplyCommitted(n.(commitIndex := c)) else n
  }

  // ----- elections -----

  function AsCandidate(n: Node): Node {
    Persist(n.(role := Candidate, term := n.term + 1, votedFor := Some(n.id), leaderId := None, votes := {n.id}))
  }

  function RequestVotes(n: Node): Node {
    n.(outbox := n.outbox + seq(|n.peers|, i requires 0 <= i < |n.peers| =>
         Envelope(n.id, n.peers[i], RequestVote(n.term, n.id, |n.log|, LastTerm(n.log)))))
  }

  function AsLeader(n: Node): Node {
    Persist(n.(role := Leader, leaderId := Some(n.id),
               nextIndex := map p | p in n.peers :: |n.log| + 1,
               matchIndex := map p | p in n.peers :: 0,
               log := n.log + [LogEntry(n.term, Noop)]))
  }

  function BecomeLeader(n: Node): Node
    requires n.commitIndex <= |n.log|
  {
    AdvanceCommit(BroadcastAppend(AsLeader(n)))
  }

  function BecomeCandidate(n: Node): Node
    requires n.commitIndex <= |n.log|
  {
    var c := AsCandidate(n);
    if HasMajority(c, 1) then BecomeLeader(c) else RequestVotes(c)
  }

  function BecomeFollower(n: Node, term: nat): Node {
    var m := n.(role := Follower, leaderId := None);
    Persist(if term > n.term then m.(term := term, votedFor := None) else m)
  }

  predicate LogUpToDate(n: Node, lastIndex: nat, lastTerm: nat) {
    lastTerm > LastTerm(n.log) || (lastTerm == LastTerm(n.log) && lastIndex >= |n.log|)
  }

  // ----- message handlers -----

  function OnRequestVote(n: Node, src: NodeId, rv: Body): Node
    requires rv.RequestVote?
  {
    if rv.term < n.term then Send(n, src, RequestVoteReply(n.term, false))
    else
      var m := if rv.term > n.term then BecomeFollower(n, rv.term) else n;
      if (m.votedFor == None || m.votedFor == Some(rv.candidateId)) && LogUpToDate(m, rv.lastLogIndex, rv.lastLogTerm)
      then Send(Persist(m.(votedFor := Some(rv.candidateId))), src, RequestVoteReply(m.term, true))
      else Send(m, src, RequestVoteReply(m.term, false))
  }

  function OnRequestVoteReply(n: Node, src: NodeId, reply: Body): Node
    requires reply.RequestVoteReply? && n.commitIndex <= |n.log|
  {
    if reply.term > n.term then BecomeFollower(n, reply.term)
    else if n.role != Candidate || reply.term < n.term then n
    else if !reply.voteGranted then n
    else
      var m := n.(votes := n.votes + {src});
      if HasMajority(m, |m.votes|) then BecomeLeader(m) else m
  }

  // The state in which a node of at most the sender's term defers to that leader.
  function Deferring(n: Node, ae: Body): Node
    requires ae.AppendEntries?
  {
    var m := if ae.term > n.term then BecomeFollower(n, ae.term) else n;
    m.(role := Follower, leaderId := Some(ae.leaderId))
  }

  predicate Consistent(n: Node, ae: Body)
    requires ae.AppendEntries?
  {
    ae.prevLogIndex <= |n.log| && TermAt(n.log, ae.prevLogIndex) == ae.prevLogTerm
  }

  function Accepted(n: Node, ae: Body): Node
    requires ae.AppendEntries? && Consistent(n, ae)
  {
    n.(log := Splice(n.log, ae.prevLogIndex, ae.entries))
  }

  function FollowCommit(n: Node, ae: Body): Node
    requires ae.AppendEntries? && ae.prevLogIndex + |ae.entries| <= |n.log|
  {
    if ae.leaderCommit > n.commitIndex
    then ApplyCommitted(n.(commitIndex := Min(ae.leaderCommit, ae.prevLogIndex + |ae.entries|)))
    else n
  }

  function OnAppendEntries(n: Node, src: NodeId, ae: Body): Node
    requires ae.AppendEntries?
  {
    if ae.term < n.term then Send(n, src, AppendEntriesReply(n.term, false, |n.log|))
    else
      var m := Deferring(n, ae);
      if !Consistent(m, ae) then Send(m, src, AppendEntriesReply(m.term, false, |m.log|))
      else
        Send(Persist(FollowCommit(Accepted(m, ae), ae)), src,
             AppendEntriesReply(m.term, true, ae.prevLogIndex + |ae.entries|))
  }

  function Matched(n: Node, src: NodeId, index: nat): Node {
    n.(matchIndex := n.matchIndex[src := index], nextIndex := n.nextIndex[src := index + 1])
  }

  function BackedOff(n: Node, src: NodeId, index: nat): Node {
    n.(nextIndex := n.nextIndex[src := Max(1, Min(Next(n, src) - 1, index + 1))])
  }

  function OnAppendEntriesReply(n: Node, src: NodeId, reply: Body): Node
    requires reply.AppendEntriesReply? && n.commitIndex <= |n.log|
  {
    if reply.term > n.term then BecomeFollower(n, reply.term)
    else if n.role != Leader || reply.term < n.term then n
    else if reply.success then AdvanceCommit(Matched(n, src, reply.matchIndex))
    else SendAppendTo(BackedOff(n, src, reply.matchIndex), src)
  }

  function OnMessage(n: Node, src: NodeId, body: Body): Node
    requires n.commitIndex <= |n.log|
  {
    match body
    case RequestVote(_, _, _, _) => OnRequestVote(n, src, body)
    case RequestVoteReply(_, _) => OnRequestVoteReply(n, src, body)
    case AppendEntries(_, _, _, _, _, _) => OnAppendEntries(n, src, body)
    case AppendEntriesReply(_, _, _) => OnAppendEntriesReply(n, src, body)
  }

  // A client command on a leader.
  function Propose(n: Node, command: Command): Node
    requires n.commitIndex <= |n.log|
  {
    AdvanceCommit(BroadcastAppend(Persist(n.(log := n.log + [LogEntry(n.term, command)]))))
  }

  // Rebuilding the node from what it saved and what its state machine has applied.
  function Restart(n: Node): Node {
    Fresh(n.id, n.peers, n.savedTerm, n.savedVote, n.log, n.applied)
  }
}
