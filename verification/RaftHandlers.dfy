/** Every action of a cluster keeps the invariant: each handler is followed change by change.

    `Reached(s, h, n)` says that part-way through an action on `s` the acting node is `n`, all it
    has sent so far is in the network, and the invariant holds with the history `h`. */
module RaftHandlers {
  import opened Prelude
  import opened RaftMessages
  import opened RaftLog
  import opened RaftSpec
  import opened RaftCluster
  import opened RaftInvariant
  import opened RaftSteps

  // What of the history a later one keeps.
  ghost predicate Grows(h: History, h': History) {
    && (forall t :: t in h.logs ==> t in h'.logs && h.logs[t] <= h'.logs[t])
    && (forall t :: t in h.elections ==> t in h'.elections && h'.elections[t] == h.elections[t])
    && (forall t :: t in h.commits ==> t in h'.commits && h.commits[t].index <= h'.commits[t].index)
  }

  lemma GrowsTransitive(a: History, b: History, c: History)
    requires Grows(a, b) && Grows(b, c)
    ensures Grows(a, c)
  {
    forall t | t in a.logs ensures t in c.logs && a.logs[t] <= c.logs[t] {
      assert a.logs[t] <= b.logs[t] && b.logs[t] <= c.logs[t];
    }
  }

  ghost predicate Reached(s: Cluster, h: History, n: Node) {
    n.id in s.nodes && Inv(Put(s, n), h)
  }

  lemma ReachedNode(s: Cluster, h: History, n: Node)
    requires Reached(s, h, n)
    ensures NodeOK(s.nodes.Keys, h, n) && HistoryOK(s.nodes.Keys, h) && n.id in s.nodes
  {
    hide NodeOK, HistoryOK, MessageOK;
    assert Put(s, n).nodes.Keys == s.nodes.Keys;
    assert Put(s, n).nodes[n.id] == n;
  }

  lemma ReachedMessage(s: Cluster, h: History, n: Node, e: Envelope)
    requires Reached(s, h, n) && (e in s.net || e in n.outbox)
    ensures MessageOK(s.nodes[n.id := n], h, e)
  {
    hide NodeOK, HistoryOK, MessageOK;
  }

  lemma ExtendsGrows(h: History, h': History, i: NodeId, t: nat)
    requires Extends(h, h', i, t)
    ensures Grows(h, h')
  {
  }

  // One change, with whatever it sends.
  lemma Change(s: Cluster, h: History, n: Node, h': History, n': Node)
    requires Reached(s, h, n) && n'.id == n.id
    requires n.outbox <= n'.outbox
    requires CandidacyKept(n, n')
    requires Extends(h, h', n.id, n'.term) && HistoryOK(s.nodes.Keys, h') && NodeOK(s.nodes.Keys, h', n')
    requires forall e :: e in n'.outbox ==> e in n.outbox || MessageOK(s.nodes[n.id := n'], h', e)
    ensures Reached(s, h', n') && Grows(h, h')
  {
    hide NodeOK, HistoryOK, MessageOK, Extends, CandidacyKept, Grows;
    ExtendsGrows(h, h', n.id, n'.term);
    var p := Put(s, n);
    assert p.nodes.Keys == s.nodes.Keys;
    assert p.nodes[n.id := n'] == s.nodes[n.id := n'];
    PutKeepsInv(p, h, h', n');
    assert Put(p, n') == Put(s, n') by {
      assert forall e :: e in n.outbox ==> e in n'.outbox;
      assert Put(p, n').net == Put(s, n').net;
    }
  }

  lemma NoGrowth(h: History, i: NodeId, t: nat)
    ensures Extends(h, h, i, t) && Grows(h, h)
  {
  }

  // A change that touches neither the history nor the network.
  lemma QuietChange(s: Cluster, h: History, n: Node, n': Node)
    requires Reached(s, h, n) && n'.id == n.id && n'.outbox == n.outbox
    requires CandidacyKept(n, n') && NodeOK(s.nodes.Keys, h, n')
    ensures Reached(s, h, n')
  {
    hide NodeOK, HistoryOK, MessageOK, Extends, CandidacyKept, Reached;
    ReachedNode(s, h, n);
    NoGrowth(h, n.id, n'.term);
    Change(s, h, n, h, n');
  }

  // Sending something acceptable, or recording what the invariant does not look at.
  lemma SendChange(s: Cluster, h: History, n: Node, n': Node)
    requires Reached(s, h, n) && n.outbox <= n'.outbox
    requires SameLog(n, n') && SameOffice(n, n')
    requires n'.commitIndex == n.commitIndex && n'.votes == n.votes
    requires n'.nextIndex == n.nextIndex && n'.matchIndex == n.matchIndex
    requires forall e :: e in n'.outbox[|n.outbox|..] ==> MessageOK(s.nodes[n.id := n'], h, e)
    ensures Reached(s, h, n')
  {
    hide NodeOK, HistoryOK, MessageOK, Extends, CandidacyKept, Reached;
    ReachedNode(s, h, n);
    NoGrowth(h, n.id, n'.term);
    Unchanged(s.nodes.Keys, h, n, n');
    assert n'.outbox == n.outbox + n'.outbox[|n.outbox|..];
    Change(s, h, n, h, n');
  }

  predicate Harmless(body: Body) {
    || (body.RequestVoteReply? && !body.voteGranted)
    || (body.AppendEntriesReply? && !body.success)
  }

  lemma Refuse(s: Cluster, h: History, n: Node, dst: NodeId, body: Body)
    requires Reached(s, h, n) && dst in s.nodes && dst != n.id && Harmless(body)
    ensures Reached(s, h, Send(n, dst, body))
  {
    hide Reached;
    SendChange(s, h, n, Send(n, dst, body));
  }

  lemma FollowerReached(s: Cluster, h: History, n: Node, term: nat)
    requires Reached(s, h, n)
    ensures Reached(s, h, BecomeFollower(n, term))
  {
    hide Reached, NodeOK;
    ReachedNode(s, h, n);
    StepDown(s.nodes.Keys, h, n, BecomeFollower(n, term));
    QuietChange(s, h, n, BecomeFollower(n, term));
  }

  // ----- leaders -----

  lemma BroadcastReached(s: Cluster, h: History, n: Node)
    requires Reached(s, h, n) && n.role == Leader
    ensures Reached(s, h, BroadcastAppend(n))
  {
    hide Reached, AppendOK, HistoryOK;
    ReachedNode(s, h, n);
    AckWithinTerm(s.nodes.Keys, h, n.id, n.term);
    var n' := BroadcastAppend(n);
    forall e | e in n'.outbox[|n.outbox|..] ensures MessageOK(s.nodes[n.id := n'], h, e) {
      var i :| 0 <= i < |n.peers| && e == AppendTo(n, n.peers[i]);
      assert n.peers[i] in Members(n.peers);
      AppendIsOK(s.nodes.Keys, h, n, n.peers[i]);
    }
    SendChange(s, h, n, n');
  }

  lemma CommitReached(s: Cluster, h: History, n: Node) returns (h': History)
    requires Reached(s, h, n) && n.role == Leader && n.commitIndex <= |n.log|
    ensures Reached(s, h', AdvanceCommit(n)) && Grows(h, h')
  {
    hide Reached, NodeOK, HistoryOK, Extends, Grows, Committable, MessageOK;
    ReachedNode(s, h, n);
    var c := CommitTarget(n, |n.log|);
    if c > n.commitIndex {
      var m := n.(commitIndex := c);
      h' := CommitAt(s.nodes.Keys, h, n, c);
      Change(s, h, n, h', m);
      ApplyKeeps(s.nodes.Keys, h', m);
      QuietChange(s, h', m, ApplyCommitted(m));
    } else {
      h' := h;
      NoGrowth(h, n.id, n.term);
    }
  }

  lemma LeaderReached(s: Cluster, h: History, n: Node) returns (h': History)
    requires Reached(s, h, n) && n.role == Candidate && HasMajority(n, |n.votes|) && n.commitIndex <= |n.log|
    ensures Reached(s, h', BecomeLeader(n)) && Grows(h, h')
  {
    hide Reached, NodeOK, HistoryOK, Extends, Grows, MessageOK, AdvanceCommit;
    ReachedNode(s, h, n);
    var h1 := TakeOffice(s.nodes.Keys, h, n);
    Change(s, h, n, h1, AsLeader(n));
    BroadcastReached(s, h1, AsLeader(n));
    h' := CommitReached(s, h1, BroadcastAppend(AsLeader(n)));
    GrowsTransitive(h, h1, h');
  }

  // ----- elections -----

  lemma CandidateReached(s: Cluster, h: History, n: Node) returns (h': History)
    requires Reached(s, h, n) && n.commitIndex <= |n.log|
    ensures Reached(s, h', BecomeCandidate(n)) && Grows(h, h')
  {
    hide Reached, NodeOK, HistoryOK, Extends, Grows, MessageOK, BecomeLeader;
    ReachedNode(s, h, n);
    var c := AsCandidate(n);
    var h1 := Stand(s.nodes.Keys, h, n);
    Change(s, h, n, h1, c);
    if HasMajority(c, 1) {
      h' := LeaderReached(s, h1, c);
      GrowsTransitive(h, h1, h');
    } else {
      h' := h1;
      RequestsReached(s, h1, c);
    }
  }

  lemma RequestsReached(s: Cluster, h: History, n: Node)
    requires Reached(s, h, n)
    ensures Reached(s, h, RequestVotes(n))
  {
    hide Reached, HistoryOK, RoleOK, VotesOK, AcksOK, AppliedOK, Rooted;
    ReachedNode(s, h, n);
    var n' := RequestVotes(n);
    forall e | e in n'.outbox[|n.outbox|..] ensures MessageOK(s.nodes[n.id := n'], h, e) {
      var i :| && 0 <= i < |n.peers|
               && e == Envelope(n.id, n.peers[i], RequestVote(n.term, n.id, |n.log|, LastTerm(n.log)));
      assert n.peers[i] in Members(n.peers);
    }
    SendChange(s, h, n, n');
  }

  // A log at least as up to date as the voter's covers everything the voter acknowledged.
  lemma VoteCovers(h: History, n: Node, term: nat, l: seq<LogEntry>)
    requires AcksOK(h, n) && LogUpToDate(n, |l|, LastTerm(l))
    ensures Covers(h, n.id, term, l)
  {
  }

  lemma GrantReached(s: Cluster, h: History, n: Node, src: NodeId, rv: Body) returns (h': History)
    requires Reached(s, h, n) && rv.RequestVote? && n.term == rv.term && src != n.id
    requires MessageOK(s.nodes[n.id := n], h, Envelope(src, n.id, rv))
    requires n.votedFor == None || n.votedFor == Some(rv.candidateId)
    requires LogUpToDate(n, rv.lastLogIndex, rv.lastLogTerm)
    ensures Reached(s, h', Send(Persist(n.(votedFor := Some(rv.candidateId))), src, RequestVoteReply(n.term, true)))
    ensures Grows(h, h')
  {
    hide Reached, HistoryOK, Extends, Grows, RoleOK, VotesOK, AppliedOK, Rooted, Covers;
    ReachedNode(s, h, n);
    var m := Persist(n.(votedFor := Some(rv.candidateId)));
    var n' := Send(m, src, RequestVoteReply(n.term, true));
    h' := GrantVote(s.nodes.Keys, h, n, rv.candidateId, m);
    var c := s.nodes[src];
    if c.term == n.term && c.role == Candidate {
      VoteCovers(h', m, n.term, c.log) by {
        assert LogUpToDate(m, |c.log|, LastTerm(c.log));
      }
    }
    Change(s, h, n, h', m);
    SendChange(s, h', m, n');
  }

  lemma RequestVoteReached(s: Cluster, h: History, n: Node, src: NodeId, rv: Body) returns (h': History)
    requires Reached(s, h, n) && rv.RequestVote? && Envelope(src, n.id, rv) in s.net
    ensures Reached(s, h', OnRequestVote(n, src, rv)) && Grows(h, h')
  {
    hide Reached, NodeOK, HistoryOK, Grows, LogUpToDate;
    NoGrowth(h, n.id, n.term);
    ReachedMessage(s, h, n, Envelope(src, n.id, rv));
    if rv.term < n.term {
      h' := h;
      Refuse(s, h, n, src, RequestVoteReply(n.term, false));
    } else {
      var m := if rv.term > n.term then BecomeFollower(n, rv.term) else n;
      FollowerReached(s, h, n, rv.term);
      ReachedMessage(s, h, m, Envelope(src, n.id, rv));
      if (m.votedFor == None || m.votedFor == Some(rv.candidateId)) && LogUpToDate(m, rv.lastLogIndex, rv.lastLogTerm) {
        h' := GrantReached(s, h, m, src, rv);
      } else {
        h' := h;
        Refuse(s, h, m, src, RequestVoteReply(m.term, false));
      }
    }
  }

  lemma VoteReplyReached(s: Cluster, h: History, n: Node, src: NodeId, reply: Body) returns (h': History)
    requires Reached(s, h, n) && reply.RequestVoteReply? && Envelope(src, n.id, reply) in s.net
    requires n.commitIndex <= |n.log|
    ensures Reached(s, h', OnRequestVoteReply(n, src, reply)) && Grows(h, h')
  {
    hide Reached, NodeOK, HistoryOK, Grows, Covers, BecomeLeader;
    NoGrowth(h, n.id, n.term);
    h' := h;
    if reply.term > n.term {
      FollowerReached(s, h, n, reply.term);
    } else if n.role == Candidate && reply.term == n.term && reply.voteGranted {
      ReachedNode(s, h, n);
      ReachedMessage(s, h, n, Envelope(src, n.id, reply));
      var m := n.(votes := n.votes + {src});
      CountVote(s.nodes.Keys, h, n, src);
      QuietChange(s, h, n, m);
      if HasMajority(m, |m.votes|) {
        h' := LeaderReached(s, h, m);
      }
    }
  }

  // ----- replication -----

  lemma TakeReached(s: Cluster, h: History, n: Node, src: NodeId, ae: Body) returns (h': History)
    requires Reached(s, h, n) && n.role == Follower && src in s.nodes && src != n.id
    requires ae.AppendEntries? && AppendOK(h, src, ae) && n.term == ae.term && Consistent(n, ae)
    ensures Reached(s, h', Send(Persist(FollowCommit(Accepted(n, ae), ae)), src,
                                AppendEntriesReply(n.term, true, ae.prevLogIndex + |ae.entries|)))
    ensures Grows(h, h')
  {
    hide Reached, NodeOK, HistoryOK, Extends, Grows, AppendOK, Splice, ApplyCommitted, MessageOK, Committed;
    ReachedNode(s, h, n);
    var end, m := ae.prevLogIndex + |ae.entries|, Accepted(n, ae);
    h' := AcceptEntries(s.nodes.Keys, h, n, src, ae);
    AppendStaysOK(h, h', n.id, n.term, src, ae);
    Change(s, h, n, h', m);
    AdoptCommit(s.nodes.Keys, h', m, src, ae);
    var f := FollowCommit(m, ae);
    FollowCommitShape(m, ae);
    QuietChange(s, h', m, f);
    AckSent(s, h', f, src, ae);
  }

  lemma FollowCommitShape(m: Node, ae: Body)
    requires ae.AppendEntries? && ae.prevLogIndex + |ae.entries| <= |m.log|
    ensures var f := FollowCommit(m, ae);
      f.id == m.id && f.outbox == m.outbox && f.term == m.term && f.role == m.role && f.log == m.log
          && f.peers == m.peers
  {
  }

  lemma AppendStaysOK(h: History, h': History, i: NodeId, t: nat, src: NodeId, ae: Body)
    requires ae.AppendEntries? && AppendOK(h, src, ae) && Extends(h, h', i, t)
    ensures AppendOK(h', src, ae)
  {
    assert h'.logs[ae.term][..ae.leaderCommit] == h.logs[ae.term][..ae.leaderCommit];
    CommittedGrows(h, h', i, t, h.logs[ae.term][..ae.leaderCommit], ae.term, ae.term);
  }

  lemma AckSent(s: Cluster, h: History, n: Node, src: NodeId, ae: Body)
    requires Reached(s, h, n) && src in s.nodes && src != n.id
    requires ae.AppendEntries? && AppendOK(h, src, ae) && n.term == ae.term
    requires (n.id, n.term) in h.acks && ae.prevLogIndex + |ae.entries| <= h.acks[(n.id, n.term)]
    ensures Reached(s, h, Send(Persist(n), src, AppendEntriesReply(n.term, true, ae.prevLogIndex + |ae.entries|)))
  {
    hide Reached, Committed;
    SendChange(s, h, n, Send(Persist(n), src, AppendEntriesReply(n.term, true, ae.prevLogIndex + |ae.entries|)));
  }

  lemma AppendReached(s: Cluster, h: History, n: Node, src: NodeId, ae: Body) returns (h': History)
    requires Reached(s, h, n) && ae.AppendEntries? && Envelope(src, n.id, ae) in s.net
    ensures Reached(s, h', OnAppendEntries(n, src, ae)) && Grows(h, h')
  {
    hide Reached, NodeOK, HistoryOK, Grows, AppendOK, Accepted, FollowCommit;
    NoGrowth(h, n.id, n.term);
    ReachedMessage(s, h, n, Envelope(src, n.id, ae));
    h' := h;
    if ae.term < n.term {
      Refuse(s, h, n, src, AppendEntriesReply(n.term, false, |n.log|));
    } else {
      var m := Deferring(n, ae);
      ReachedNode(s, h, n);
      StepDown(s.nodes.Keys, h, n, m);
      QuietChange(s, h, n, m);
      if !Consistent(m, ae) {
        Refuse(s, h, m, src, AppendEntriesReply(m.term, false, |m.log|));
      } else {
        h' := TakeReached(s, h, m, src, ae);
      }
    }
  }

  lemma BackOffReached(s: Cluster, h: History, n: Node, src: NodeId, index: nat)
    requires Reached(s, h, n) && n.role == Leader && src in s.nodes && src != n.id
    ensures Reached(s, h, SendAppendTo(BackedOff(n, src, index), src))
  {
    hide Reached, HistoryOK, AppendOK;
    ReachedNode(s, h, n);
    BackOff(s.nodes.Keys, h, n, src, index);
    var m := BackedOff(n, src, index);
    QuietChange(s, h, n, m);
    AckWithinTerm(s.nodes.Keys, h, n.id, n.term);
    AppendIsOK(s.nodes.Keys, h, m, src);
    SendChange(s, h, m, SendAppendTo(m, src));
  }

  lemma AppendReplyReached(s: Cluster, h: History, n: Node, src: NodeId, reply: Body) returns (h': History)
    requires Reached(s, h, n) && reply.AppendEntriesReply? && Envelope(src, n.id, reply) in s.net
    requires n.commitIndex <= |n.log|
    ensures Reached(s, h', OnAppendEntriesReply(n, src, reply)) && Grows(h, h')
  {
    hide Reached, NodeOK, HistoryOK, Grows, AdvanceCommit;
    NoGrowth(h, n.id, n.term);
    h' := h;
    if reply.term > n.term {
      FollowerReached(s, h, n, reply.term);
    } else if n.role == Leader && reply.term == n.term {
      ReachedNode(s, h, n);
      ReachedMessage(s, h, n, Envelope(src, n.id, reply));
      if reply.success {
        AckIsOK(s.nodes.Keys, h, (src, n.term));
        LearnMatch(s.nodes.Keys, h, n, src, reply.matchIndex);
        QuietChange(s, h, n, Matched(n, src, reply.matchIndex));
        h' := CommitReached(s, h, Matched(n, src, reply.matchIndex));
      } else {
        BackOffReached(s, h, n, src, reply.matchIndex);
      }
    }
  }

  lemma AckIsOK(ids: set<NodeId>, h: History, k: (NodeId, nat))
    requires HistoryOK(ids, h) && k in h.acks
    ensures AckOK(h, k)
  {
    hide AckOK, TermLog, Won, CommitOK;
  }

  lemma ProposeReached(s: Cluster, h: History, n: Node, command: Command) returns (h': History)
    requires Reached(s, h, n) && n.role == Leader && n.commitIndex <= |n.log|
    ensures Reached(s, h', Propose(n, command)) && Grows(h, h')
  {
    hide Reached, NodeOK, HistoryOK, Extends, Grows, MessageOK, AdvanceCommit;
    ReachedNode(s, h, n);
    var m := Persist(n.(log := n.log + [LogEntry(n.term, command)]));
    var h1 := LeaderAppend(s.nodes.Keys, h, n, m, command);
    Change(s, h, n, h1, m);
    BroadcastReached(s, h1, m);
    h' := CommitReached(s, h1, BroadcastAppend(m));
    GrowsTransitive(h, h1, h');
  }

  // ----- whole actions -----

  // What is saved is what is held, whenever a node is between actions.
  ghost predicate AllSaved(s: Cluster) {
    forall i :: i in s.nodes ==> s.nodes[i].savedTerm == s.nodes[i].term && s.nodes[i].savedVote == s.nodes[i].votedFor
  }

  lemma RestartReached(s: Cluster, h: History, n: Node)
    requires Reached(s, h, n) && n.savedTerm == n.term && n.savedVote == n.votedFor && n.outbox == []
    ensures Reached(s, h, Restart(n))
  {
    hide Reached, RoleOK, VotesOK, AcksOK, Rooted, HistoryOK;
    ReachedNode(s, h, n);
    assert Restart(n).lastApplied == n.lastApplied;
    hide NodeOK;
    StepDown(s.nodes.Keys, h, n, Restart(n));
    QuietChange(s, h, n, Restart(n));
  }

  lemma MessageReached(s: Cluster, h: History, n: Node, e: Envelope) returns (h': History)
    requires Reached(s, h, n) && e in s.net && e.dst == n.id && n.commitIndex <= |n.log|
    ensures Reached(s, h', OnMessage(n, e.src, e.body)) && Grows(h, h')
  {
    hide Reached, Grows, OnRequestVote, OnRequestVoteReply, OnAppendEntries, OnAppendEntriesReply;
    match e.body
    case RequestVote(_, _, _, _) => h' := RequestVoteReached(s, h, n, e.src, e.body);
    case RequestVoteReply(_, _) => h' := VoteReplyReached(s, h, n, e.src, e.body);
    case AppendEntries(_, _, _, _, _, _) => h' := AppendReached(s, h, n, e.src, e.body);
    case AppendEntriesReply(_, _, _) => h' := AppendReplyReached(s, h, n, e.src, e.body);
  }

  lemma Cleared(s: Cluster, h: History, i: NodeId)
    requires Inv(s, h) && i in s.nodes
    ensures Reached(s, h, s.nodes[i].(outbox := []))
  {
    hide NodeOK, HistoryOK, MessageOK, Extends, CandidacyKept;
    var n := s.nodes[i].(outbox := []);
    Unchanged(s.nodes.Keys, h, s.nodes[i], n);
    NoGrowth(h, i, n.term);
    PutKeepsInv(s, h, h, n);
  }

  lemma ActKeepsInv(s: Cluster, h: History, a: Action) returns (h': History)
    requires Inv(s, h) && AllSaved(s) && Enabled(s, a)
    ensures Inv(Act(s, a), h') && Grows(h, h')
    ensures Act(s, a).nodes.Keys == s.nodes.Keys
  {
    hide Inv, Grows, OnMessage, BecomeCandidate, BroadcastAppend, Propose;
    IdsAgree(s, h);
    var n := s.nodes[Actor(a)].(outbox := []);
    Cleared(s, h, Actor(a));
    NoGrowth(h, n.id, n.term);
    h' := h;
    match a
    case Deliver(env) => h' := MessageReached(s, h, n, env);
    case ElectionTimeout(_) => h' := CandidateReached(s, h, n);
    case HeartbeatTimeout(_) => BroadcastReached(s, h, n);
    case ClientWrite(_, command) => h' := ProposeReached(s, h, n, command);
    case Reboot(_) => RestartReached(s, h, n);
  }

  lemma IdsAgree(s: Cluster, h: History)
    requires Inv(s, h)
    ensures forall i :: i in s.nodes ==> s.nodes[i].id == i
  {
    hide NodeOK, HistoryOK, MessageOK;
  }
}
