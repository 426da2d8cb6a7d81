/** Where the commands of a cluster come from (`imustore/raft/node.py`, `propose`): a client's write
    puts its command at the end of the leader's log and sends it to every peer, and no node ever
    logs, sends or applies a command that no client has written. */
module RaftClients {
  import opened Prelude
  import opened RaftMessages
  import opened RaftLog
  import opened RaftSpec
  import opened RaftCluster
  import opened RaftInvariant
  import opened RaftTheorems
  import RaftRepair

  // ----- a write reaches the log and the network -----

  // `e` is an append whose last entry is `entry`.
  predicate EndsWith(e: Envelope, entry: LogEntry) {
    e.body.AppendEntries? && e.body.entries != [] && e.body.entries[|e.body.entries| - 1] == entry
  }

  lemma ProposedNode(n: Node, command: Command)
    requires n.commitIndex <= |n.log| && n.outbox == []
    ensures var m := Propose(n, command);
            && m.log == n.log + [LogEntry(n.term, command)]
            && m.term == n.term && m.role == n.role && m.id == n.id
            && |m.outbox| == |n.peers|
            && forall i :: 0 <= i < |n.peers| ==>
                 && m.outbox[i].src == n.id && m.outbox[i].dst == n.peers[i]
                 && (Next(n, n.peers[i]) <= |n.log| + 1 ==> EndsWith(m.outbox[i], LogEntry(n.term, command)))
  {
    hide AdvanceCommit;
    var b := BroadcastAppend(Persist(n.(log := n.log + [LogEntry(n.term, command)])));
    AdvanceSpares(b);
    forall i | 0 <= i < |n.peers| ensures b.outbox[i] == AppendTo(b, n.peers[i]) {
    }
  }

  // Counting replicas touches the commit index and what is applied, and nothing else.
  lemma AdvanceSpares(n: Node)
    requires n.commitIndex <= |n.log|
    ensures var m := AdvanceCommit(n);
            m.log == n.log && m.outbox == n.outbox && m.term == n.term && m.role == n.role && m.id == n.id
  {
    hide CommitTarget, Committable;
  }

  lemma LeaderAt(run: seq<Cluster>, k: nat, id: NodeId)
    requires IsRun(run) && k < |run| && id in run[k].nodes && run[k].nodes[id].role == Leader
    ensures run[k].nodes[id].id == id && PeersAre(run[k].nodes.Keys, run[k].nodes[id])
    ensures forall p :: p in run[k].nodes[id].peers ==> Next(run[k].nodes[id], p) <= |run[k].nodes[id].log| + 1
  {
    hide IsRun, HistoryOK, VotesOK, AcksOK, AppliedOK, Rooted;
    var hs := RunExplained(run);
    NodeAt(run, hs, k, id);
  }

  // A client's write on a leader of a reachable state: its command, under the leader's term,
  // becomes the last entry of the leader's log and the last entry of an append to every peer.
  lemma WriteIsLoggedAndSent(run: seq<Cluster>, k: nat, id: NodeId, command: Command)
    requires IsRun(run) && k < |run| && Enabled(run[k], ClientWrite(id, command))
    ensures var n, s := run[k].nodes[id], Act(run[k], ClientWrite(id, command));
            && id in s.nodes && s.nodes[id].log == n.log + [LogEntry(n.term, command)]
            && forall p :: p in run[k].nodes && p != id ==>
                 exists e :: e in s.net && e.src == id && e.dst == p && EndsWith(e, LogEntry(n.term, command))
  {
    hide IsRun, Propose, EndsWith;
    LeaderAt(run, k, id);
    var n := run[k].nodes[id];
    var m := Propose(n.(outbox := []), command);
    ProposedNode(n.(outbox := []), command);
    var s := Act(run[k], ClientWrite(id, command));
    forall p | p in run[k].nodes && p != id
      ensures exists e :: e in s.net && e.src == id && e.dst == p && EndsWith(e, LogEntry(n.term, command))
    {
      assert p in Members(n.peers);
      var i :| 0 <= i < |n.peers| && n.peers[i] == p;
      assert m.outbox[i] in s.net;
    }
  }

  // ----- nothing else does -----

  // Every command in the log, and in the appends waiting to be sent, is among `cs`.
  ghost predicate Within(n: Node, cs: iset<Command>) {
    && (forall e :: e in n.log ==> e.command in cs)
    && (forall m :: m in n.outbox ==> Carries(m, cs))
  }

  ghost predicate Carries(m: Envelope, cs: iset<Command>) {
    m.body.AppendEntries? ==> forall e :: e in m.body.entries ==> e.command in cs
  }

  ghost predicate AllWithin(s: Cluster, cs: iset<Command>) {
    && (forall i :: i in s.nodes ==> Within(s.nodes[i].(outbox := []), cs))
    && (forall m :: m in s.net ==> Carries(m, cs))
  }

  lemma BroadcastWithin(n: Node, cs: iset<Command>)
    requires Within(n, cs)
    ensures Within(BroadcastAppend(n), cs)
    ensures BroadcastAppend(n).log == n.log && BroadcastAppend(n).commitIndex == n.commitIndex
  {
    forall i | 0 <= i < |n.peers| ensures Carries(AppendTo(n, n.peers[i]), cs) {
      AppendWithin(n, n.peers[i], cs);
    }
  }

  lemma AppendWithin(n: Node, p: NodeId, cs: iset<Command>)
    requires Within(n, cs)
    ensures Carries(AppendTo(n, p), cs)
  {
  }

  lemma AdvanceWithin(n: Node, cs: iset<Command>)
    requires n.commitIndex <= |n.log| && Within(n, cs)
    ensures Within(AdvanceCommit(n), cs)
  {
    hide CommitTarget, Committable;
  }

  lemma LeaderWithin(n: Node, cs: iset<Command>)
    requires n.commitIndex <= |n.log| && Within(n, cs) && Noop in cs
    ensures Within(BecomeLeader(n), cs)
  {
    hide AdvanceCommit, BroadcastAppend;
    BroadcastWithin(AsLeader(n), cs);
    AdvanceWithin(BroadcastAppend(AsLeader(n)), cs);
  }

  lemma TakenWithin(n: Node, src: NodeId, ae: Body, cs: iset<Command>)
    requires ae.AppendEntries? && Within(n, cs) && forall e :: e in ae.entries ==> e.command in cs
    ensures Within(OnAppendEntries(n, src, ae), cs)
  {
    hide MatchLength, FollowCommit;
    if ae.term >= n.term && Consistent(Deferring(n, ae), ae) {
      var m := Accepted(Deferring(n, ae), ae);
      assert m.outbox == n.outbox && Within(m, cs);
      RaftRepair.FollowCommitKeeps(m, ae);
    }
  }

  lemma MessageWithin(n: Node, env: Envelope, cs: iset<Command>)
    requires n.commitIndex <= |n.log| && Within(n, cs) && Noop in cs && Carries(env, cs)
    ensures Within(OnMessage(n, env.src, env.body), cs)
  {
    hide AdvanceCommit, BecomeLeader, OnAppendEntries, AppendTo;
    var src, body := env.src, env.body;
    match body
    case RequestVote(_, _, _, _) =>
    case RequestVoteReply(_, _) => LeaderWithin(n.(votes := n.votes + {src}), cs);
    case AppendEntries(_, _, _, _, _, _) => TakenWithin(n, src, body, cs);
    case AppendEntriesReply(_, _, index) =>
      AdvanceWithin(Matched(n, src, index), cs);
      AppendWithin(BackedOff(n, src, index), src, cs);
  }

  // One action adds to the logs and the network no command but the no-op and, if it is a client's
  // write, the command written.
  lemma ActWithin(s: Cluster, a: Action, cs: iset<Command>)
    requires Enabled(s, a) && AllWithin(s, cs) && Noop in cs && (a.ClientWrite? ==> a.command in cs)
    ensures AllWithin(Act(s, a), cs)
  {
    var n := s.nodes[Actor(a)].(outbox := []);
    assert Within(n, cs);
    assert Within(Acted(n, a), cs) by {
      hide AdvanceCommit, BecomeLeader, OnMessage, BroadcastAppend, Within;
      match a
      case Deliver(env) => MessageWithin(n, env, cs);
      case ElectionTimeout(_) =>
        assert Within(AsCandidate(n), cs) && Within(RequestVotes(AsCandidate(n)), cs) by {
          CandidateWithin(n, cs);
        }
        LeaderWithin(AsCandidate(n), cs);
      case HeartbeatTimeout(_) => BroadcastWithin(n, cs);
      case ClientWrite(_, command) => ProposeWithin(n, command, cs);
      case Reboot(_) => RestartWithin(n, cs);
    }
    hide Acted;
    var m := Acted(n, a);
    assert Within(m.(outbox := []), cs);
  }

  lemma CandidateWithin(n: Node, cs: iset<Command>)
    requires Within(n, cs)
    ensures Within(AsCandidate(n), cs) && Within(RequestVotes(AsCandidate(n)), cs)
  {
  }

  lemma RestartWithin(n: Node, cs: iset<Command>)
    requires Within(n, cs)
    ensures Within(Restart(n), cs)
  {
  }

  lemma ProposeWithin(n: Node, command: Command, cs: iset<Command>)
    requires n.commitIndex <= |n.log| && Within(n, cs) && command in cs
    ensures Within(Propose(n, command), cs)
  {
    hide AdvanceCommit, BroadcastAppend;
    var m := Persist(n.(log := n.log + [LogEntry(n.term, command)]));
    BroadcastWithin(m, cs);
    AdvanceWithin(BroadcastAppend(m), cs);
  }

  // Step `j` of the run is a client's write of `command` on node `id`.
  ghost predicate Writes(run: seq<Cluster>, j: nat, id: NodeId, command: Command) {
    && j + 1 < |run|
    && Enabled(run[j], ClientWrite(id, command))
    && run[j + 1] == Act(run[j], ClientWrite(id, command))
  }

  // Some client's write of `command` is among the first `k` steps.
  ghost predicate Written(run: seq<Cluster>, k: nat, command: Command) {
    exists j: nat, id :: j < k && Writes(run, j, id, command)
  }

  ghost function Known(run: seq<Cluster>, k: nat): iset<Command> {
    iset c | c == Noop || Written(run, k, c)
  }

  lemma {:induction false} WrittenCovers(run: seq<Cluster>, k: nat)
    requires IsRun(run) && k < |run|
    ensures AllWithin(run[k], Known(run, k))
    decreases k
  {
    hide Enabled, Act;
    if k == 0 {
      assert forall i :: i in run[0].nodes ==> run[0].nodes[i] == Fresh(i, run[0].nodes[i].peers, 0, None, [], []);
    } else {
      WrittenCovers(run, k - 1);
      assert Step(run[k - 1], run[k]);
      var a :| Enabled(run[k - 1], a) && run[k] == Act(run[k - 1], a);
      if a.ClientWrite? {
        assert Writes(run, k - 1, a.id, a.command);
      }
      MoreWithin(run[k - 1], Known(run, k - 1), Known(run, k));
      ActWithin(run[k - 1], a, Known(run, k));
    }
  }

  lemma MoreWithin(s: Cluster, cs: iset<Command>, more: iset<Command>)
    requires AllWithin(s, cs) && cs <= more
    ensures AllWithin(s, more)
  {
    forall i | i in s.nodes ensures Within(s.nodes[i].(outbox := []), more) {
      assert Within(s.nodes[i].(outbox := []), cs);
    }
  }

  // Nothing is invented: every command in a log or in a sent append, but for the no-op of a new
  // leader, is the command of a client's write earlier in the run.
  lemma LoggedWasWritten(run: seq<Cluster>, k: nat, a: NodeId, i: nat)
    requires IsRun(run) && k < |run| && a in run[k].nodes && i < |run[k].nodes[a].log|
    ensures var c := run[k].nodes[a].log[i].command; c == Noop || Written(run, k, c)
  {
    WrittenCovers(run, k);
    assert Within(run[k].nodes[a].(outbox := []), Known(run, k));
    assert run[k].nodes[a].log[i] in run[k].nodes[a].log;
  }

  lemma SentWasWritten(run: seq<Cluster>, k: nat, m: Envelope, i: nat)
    requires IsRun(run) && k < |run| && m in run[k].net && m.body.AppendEntries? && i < |m.body.entries|
    ensures var c := m.body.entries[i].command; c == Noop || Written(run, k, c)
  {
    WrittenCovers(run, k);
    assert m.body.entries[i] in m.body.entries;
  }

  // So is every command a state machine is given.
  lemma AppliedWasWritten(run: seq<Cluster>, k: nat, a: NodeId, i: nat)
    requires IsRun(run) && k < |run| && a in run[k].nodes && i < |run[k].nodes[a].applied|
    ensures var c := run[k].nodes[a].applied[i].command; c == Noop || Written(run, k, c)
  {
    AppliedExactlyOnce(run, k, a);
    LoggedWasWritten(run, k, a, i);
  }
}
