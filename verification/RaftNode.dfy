/** The Raft node as the source writes it (`imustore/raft/node.py`): an object whose handlers
    update its fields, its log and its recorder in place, with loops where the source loops.
    Each method is proved to do what the function of `RaftSpec` it is named after says. */
module RaftNode {
  import opened Prelude
  import opened RaftMessages
  import opened RaftLog
  import opened RaftSpec
  import opened RaftCluster
  import opened RaftStateMachine
  import opened RaftClients
  import opened RaftElections

  // The peers among `ps` known to hold the log up to `index`.
  function HoldersAmong(n: Node, ps: seq<NodeId>, index: nat): set<NodeId> {
    set p | p in ps && Match(n, p) >= index
  }

  lemma OneMoreHolder(n: Node, ps: seq<NodeId>, i: nat, index: nat)
    requires NoDuplicates(ps) && i < |ps|
    ensures |HoldersAmong(n, ps[..i + 1], index)|
         == |HoldersAmong(n, ps[..i], index)| + if Match(n, ps[i]) >= index then 1 else 0
  {
    assert ps[..i + 1] == ps[..i] + [ps[i]];
    if Match(n, ps[i]) >= index {
      assert HoldersAmong(n, ps[..i + 1], index) == HoldersAmong(n, ps[..i], index) + {ps[i]};
    } else {
      assert HoldersAmong(n, ps[..i + 1], index) == HoldersAmong(n, ps[..i], index);
    }
  }

  class RaftNode {
    const id: NodeId
    const peers: seq<NodeId>
    const log: Log
    const machine: Recorder
    var role: Role
    var leaderId: Option<NodeId>
    var term: nat
    var votedFor: Option<NodeId>
    var commitIndex: nat
    var lastApplied: nat
    var votes: set<NodeId>
    var nextIndex: map<NodeId, Position>
    var matchIndex: map<NodeId, nat>
    var outbox: seq<Envelope>

    ghost function View(): Node
      reads this, log, machine
    {
      Node(id, peers, role, leaderId, term, votedFor, log.currentTerm, log.votedFor, log.entries, commitIndex,
           lastApplied, votes, nextIndex, matchIndex, machine.applied, outbox)
    }

    ghost predicate Valid()
      reads this, log
    {
      NoDuplicates(peers) && commitIndex <= |log.entries|
    }

    constructor (id: NodeId, peers: seq<NodeId>, log: Log, machine: Recorder)
      requires NoDuplicates(peers)
      requires machine.appliedIndex == AppliedIndex(machine.applied)
      ensures Valid() && this.log == log && this.machine == machine
      ensures View() == Fresh(id, peers, log.currentTerm, log.votedFor, log.entries, machine.applied)
    {
      this.id, this.peers, this.log, this.machine := id, peers, log, machine;
      term, votedFor := log.currentTerm, log.votedFor;
      role, leaderId, commitIndex := Follower, None, 0;
      lastApplied := machine.appliedIndex;
      votes, nextIndex, matchIndex, outbox := {}, map[], map[], [];
    }

    method DoPersist()
      modifies log
      ensures View() == Persist(old(View()))
    {
      log.Save(term, votedFor);
    }

    method DoSend(dst: NodeId, body: Body)
      modifies this`outbox
      ensures View() == Send(old(View()), dst, body)
    {
      outbox := outbox + [Envelope(id, dst, body)];
    }

    method DoSendAppendTo(peer: NodeId)
      modifies this`outbox
      ensures View() == SendAppendTo(old(View()), peer)
    {
      var next: Position := if peer in nextIndex then nextIndex[peer] else 1;
      var prev := next - 1;
      DoSend(peer, AppendEntries(term, id, prev, TermAt(log.entries, prev), EntriesFrom(log.entries, prev + 1),
          commitIndex));
    }

    method DoBroadcastAppend()
      modifies this`outbox
      ensures View() == BroadcastAppend(old(View()))
    {
      ghost var n := View();
      for i := 0 to |peers|
        invariant View() == n.(outbox := n.outbox + seq(i, j requires 0 <= j < i => AppendTo(n, peers[j])))
      {
        DoSendAppendTo(peers[i]);
      }
    }

    method DoApply()
      requires commitIndex <= |log.entries|
      modifies this`lastApplied, machine
      ensures View() == ApplyCommitted(old(View()))
    {
      ghost var n := View();
      if lastApplied < commitIndex {
        while lastApplied < commitIndex
          invariant n.lastApplied <= lastApplied <= commitIndex
          invariant View() == ApplyUpTo(n, lastApplied)
        {
          lastApplied := lastApplied + 1;
          var entry := log.entries[lastApplied - 1];
          machine.Apply(lastApplied, entry.command);
        }
      }
    }

    method CountReplicas(index: nat) returns (replicas: nat)
      requires NoDuplicates(peers)
      ensures replicas == 1 + |Holders(View(), index)|
    {
      replicas := 1;
      ghost var n := View();
      for i := 0 to |peers|
        invariant replicas == 1 + |HoldersAmong(n, peers[..i], index)|
      {
        OneMoreHolder(n, peers, i, index);
        if (if peers[i] in matchIndex then matchIndex[peers[i]] else 0) >= index {
          replicas := replicas + 1;
        }
      }
      assert peers[..|peers|] == peers;
      assert HoldersAmong(n, peers, index) == Holders(n, index);
    }

    // The source's downward scan for the largest index a majority holds in the current term.
    method DoAdvanceCommit()
      requires Valid()
      modifies this`commitIndex, this`lastApplied, machine
      ensures View() == AdvanceCommit(old(View())) && Valid()
    {
      var index := |log.entries|;
      ghost var n := View();
      while index > commitIndex
        invariant View() == n && commitIndex <= index <= |log.entries|
        invariant CommitTarget(n, |n.log|) == CommitTarget(n, index)
      {
        if TermAt(log.entries, index) == term {
          var replicas := CountReplicas(index);
          if replicas >= (|peers| + 1) / 2 + 1 {
            commitIndex := index;
            DoApply();
            return;
          }
        }
        index := index - 1;
      }
    }

    method DoBecomeLeader()
      requires Valid()
      modifies this, log, machine
      ensures View() == BecomeLeader(old(View())) && Valid()
      ensures role == Leader && leaderId == Some(id) && term == old(term)
      ensures log.entries == old(log.entries) + [LogEntry(term, Noop)]
      ensures forall p :: p in peers ==>
                && p in nextIndex && nextIndex[p] == |old(log.entries)| + 1
                && p in matchIndex && matchIndex[p] == 0
    {
      role, leaderId := Leader, Some(id);
      nextIndex := map p | p in peers :: |log.entries| + 1;
      matchIndex := map p | p in peers :: 0;
      var _ := log.AppendNew(LogEntry(term, Noop));
      DoPersist();
      DoBroadcastAppend();
      DoAdvanceCommit();
    }

    // The election timeout, the non-leader branch of `tick`.
    method DoBecomeCandidate()
      requires Valid()
      modifies this, log, machine
      ensures View() == BecomeCandidate(old(View())) && Valid()
      ensures term == log.currentTerm == old(term) + 1 && votedFor == log.votedFor == Some(id)
      ensures role == if peers == [] then Leader else Candidate
    {
      hide BecomeLeader, RequestVotes;
      TimeoutAsksEveryPeer(View());
      role, term, votedFor, leaderId, votes := Candidate, term + 1, Some(id), None, {id};
      DoPersist();
      if |votes| >= (|peers| + 1) / 2 + 1 {
        DoBecomeLeader();
        return;
      }
      DoRequestVotes();
    }

    method DoRequestVotes()
      modifies this`outbox
      ensures View() == RequestVotes(old(View()))
    {
      ghost var n := View();
      for i := 0 to |peers|
        invariant View() == n.(outbox := n.outbox + seq(i, j requires 0 <= j < i =>
          Envelope(n.id, peers[j], RequestVote(n.term, n.id, |n.log|, LastTerm(n.log)))))
      {
        DoSend(peers[i], RequestVote(term, id, |log.entries|, LastTerm(log.entries)));
      }
    }

    method DoBecomeFollower(t: nat)
      requires Valid()
      modifies this, log
      ensures View() == BecomeFollower(old(View()), t) && Valid()
    {
      role := Follower;
      if t > term {
        term, votedFor := t, None;
      }
      leaderId := None;
      DoPersist();
    }

    method HandleRequestVote(src: NodeId, rv: Body)
      requires Valid() && rv.RequestVote?
      modifies this, log
      ensures View() == OnRequestVote(old(View()), src, rv) && Valid()
      ensures forall l :: rv == RequestOf(rv.term, rv.candidateId, l) ==>
                var granted := Free(old(View()), rv.term, rv.candidateId) && NotBehind(l, old(log.entries));
                && outbox == old(outbox) + [Envelope(id, src, RequestVoteReply(Max(old(term), rv.term), granted))]
                && (granted ==> votedFor == log.votedFor == Some(rv.candidateId) && term == log.currentTerm == rv.term)
    {
      hide Free, NotBehind, RequestOf;
      ghost var n := View();
      DoVote(src, rv);
      forall l | rv == RequestOf(rv.term, rv.candidateId, l)
        ensures var granted := Free(n, rv.term, rv.candidateId) && NotBehind(l, n.log);
                && outbox == n.outbox + [Envelope(id, src, RequestVoteReply(Max(n.term, rv.term), granted))]
                && (granted ==> votedFor == log.votedFor == Some(rv.candidateId) && term == log.currentTerm == rv.term)
      {
        VoteGrantedIff(n, src, rv.term, rv.candidateId, l);
      }
    }

    method DoVote(src: NodeId, rv: Body)
      requires Valid() && rv.RequestVote?
      modifies this, log
      ensures View() == OnRequestVote(old(View()), src, rv) && Valid()
    {
      if rv.term < term {
        DoSend(src, RequestVoteReply(term, false));
        return;
      }
      if rv.term > term {
        DoBecomeFollower(rv.term);
      }
      var logOk := rv.lastLogTerm > LastTerm(log.entries)
                   || (rv.lastLogTerm == LastTerm(log.entries) && rv.lastLogIndex >= |log.entries|);
      if (votedFor == None || votedFor == Some(rv.candidateId)) && logOk {
        votedFor := Some(rv.candidateId);
        DoPersist();
        DoSend(src, RequestVoteReply(term, true));
      } else {
        DoSend(src, RequestVoteReply(term, false));
      }
    }

    method HandleRequestVoteReply(src: NodeId, reply: Body)
      requires Valid() && reply.RequestVoteReply?
      modifies this, log, machine
      ensures View() == OnRequestVoteReply(old(View()), src, reply) && Valid()
    {
      if reply.term > term {
        DoBecomeFollower(reply.term);
        return;
      }
      if role != Candidate || reply.term < term {
        return;
      }
      if reply.voteGranted {
        votes := votes + {src};
        if |votes| >= (|peers| + 1) / 2 + 1 {
          DoBecomeLeader();
        }
      }
    }

    method HandleAppendEntries(src: NodeId, ae: Body)
      requires Valid() && ae.AppendEntries?
      modifies this, log, machine
      ensures View() == OnAppendEntries(old(View()), src, ae) && NoDuplicates(peers)
    {
      hide Splice, FollowCommit;
      if ae.term < term {
        DoSend(src, AppendEntriesReply(term, false, |log.entries|));
        return;
      }
      if ae.term > term {
        DoBecomeFollower(ae.term);
      }
      role, leaderId := Follower, Some(ae.leaderId);
      if ae.prevLogIndex > |log.entries| || TermAt(log.entries, ae.prevLogIndex) != ae.prevLogTerm {
        DoSend(src, AppendEntriesReply(term, false, |log.entries|));
        return;
      }
      TakeEntries(src, ae);
    }

    method TakeEntries(src: NodeId, ae: Body)
      requires ae.AppendEntries? && Consistent(View(), ae) && NoDuplicates(peers)
      modifies this, log, machine
      ensures View() == Send(Persist(FollowCommit(Accepted(old(View()), ae), ae)), src,
                             AppendEntriesReply(old(term), true, ae.prevLogIndex + |ae.entries|))
    {
      hide Splice;
      log.AppendFrom(ae.prevLogIndex, ae.entries);
      var newLast := ae.prevLogIndex + |ae.entries|;
      if ae.leaderCommit > commitIndex {
        commitIndex := Min(ae.leaderCommit, newLast);
        DoApply();
      }
      DoPersist();
      DoSend(src, AppendEntriesReply(term, true, newLast));
    }

    method HandleAppendEntriesReply(src: NodeId, reply: Body)
      requires Valid() && reply.AppendEntriesReply?
      modifies this, log, machine
      ensures View() == OnAppendEntriesReply(old(View()), src, reply) && Valid()
    {
      if reply.term > term {
        DoBecomeFollower(reply.term);
        return;
      }
      if role != Leader || reply.term < term {
        return;
      }
      if reply.success {
        matchIndex := matchIndex[src := reply.matchIndex];
        nextIndex := nextIndex[src := reply.matchIndex + 1];
        DoAdvanceCommit();
      } else {
        var next: Position := if src in nextIndex then nextIndex[src] else 1;
        nextIndex := nextIndex[src := Max(1, Min(next - 1, reply.matchIndex + 1))];
        DoSendAppendTo(src);
      }
    }

    // One delivered message.
    method Step(src: NodeId, body: Body) returns (out: seq<Envelope>)
      requires Valid()
      modifies this, log, machine
      ensures View().(outbox := out) == OnMessage(old(View()).(outbox := []), src, body)
      ensures outbox == []
    {
      outbox := [];
      match body {
        case RequestVote(_, _, _, _) => HandleRequestVote(src, body);
        case RequestVoteReply(_, _) => HandleRequestVoteReply(src, body);
        case AppendEntries(_, _, _, _, _, _) => HandleAppendEntries(src, body);
        case AppendEntriesReply(_, _, _) => HandleAppendEntriesReply(src, body);
      }
      out := outbox;
      outbox := [];
    }

    // A client command: refused unless this node leads.
    method DoPropose(command: Command) returns (index: Option<nat>, out: seq<Envelope>)
      requires Valid()
      modifies this, log, machine
      ensures index.None? <==> old(role) != Leader
      ensures index.None? ==> View() == old(View()) && out == []
      ensures index.Some? ==>
                && index.value == |log.entries| && outbox == []
                && View().(outbox := out) == Propose(old(View()).(outbox := []), command)
                && log.entries == old(log.entries) + [LogEntry(term, command)] && term == old(term)
                && |out| == |peers|
                && forall i :: 0 <= i < |peers| ==>
                     && out[i].src == id && out[i].dst == peers[i]
                     && (Next(old(View()), peers[i]) <= |log.entries| ==> EndsWith(out[i], LogEntry(term, command)))
    {
      if role != Leader {
        return None, [];
      }
      outbox := [];
      ProposedNode(View(), command);
      var i := log.AppendNew(LogEntry(term, command));
      DoPersist();
      DoBroadcastAppend();
      DoAdvanceCommit();
      index, out := Some(i), outbox;
      outbox := [];
    }
  }
}
