/** How a leader brings a follower's log into line: back off on each rejection until one append
    is accepted (`imustore/raft/node.py`, the append handlers). */
module RaftRepair {
  import opened Prelude
  import opened RaftMessages
  import opened RaftLog
  import opened RaftSpec
  import opened RaftCluster
  import opened RaftInvariant
  import opened RaftTheorems

  // Logs in which agreement on a term at an index means agreement up to there.
  ghost predicate Matching(a: seq<LogEntry>, b: seq<LogEntry>) {
    forall k: nat {:trigger a[..k]} :: k <= |a| && k <= |b| && TermAt(a, k) == TermAt(b, k) ==> a[..k] == b[..k]
  }

  // A leader and a follower that knows no later term, exchanging only current messages.
  predicate Pair(n: Node, f: Node) {
    && n.role == Leader && f.id != n.id && f.term <= n.term
    && n.commitIndex <= |n.log| && Next(n, f.id) <= |n.log| + 1
  }

  function Received(n: Node, f: Node): Node {
    OnAppendEntries(f.(outbox := []), n.id, AppendTo(n, f.id).body)
  }

  function Reply(n: Node, f: Node): Body
    requires Pair(n, f)
  {
    var out := Received(n, f).outbox;
    out[0].body
  }

  function Answered(n: Node, f: Node): Node
    requires Pair(n, f)
  {
    OnAppendEntriesReply(n.(outbox := []), f.id, Reply(n, f))
  }

  // Whether the follower finds the leader's previous entry in its own log.
  predicate Finds(n: Node, f: Node) {
    var prev := Next(n, f.id) - 1;
    prev <= |f.log| && TermAt(f.log, prev) == TermAt(n.log, prev)
  }

  // A follower that finds the previous entry takes the entries and says so.
  lemma FoundBody(f: Node, src: NodeId, ae: Body)
    requires ae.AppendEntries? && f.term <= ae.term && Consistent(f, ae) && f.outbox == []
    ensures var g := OnAppendEntries(f, src, ae);
            && |g.outbox| == 1
            && g.outbox[0].body == AppendEntriesReply(ae.term, true, ae.prevLogIndex + |ae.entries|)
            && g.log == Splice(f.log, ae.prevLogIndex, ae.entries)
  {
    hide Splice, ApplyUpTo, FollowCommit, TermAt;
    var m := Deferring(f, ae);
    assert Consistent(m, ae);
    FollowCommitKeeps(Accepted(m, ae), ae);
  }

  lemma Found(n: Node, f: Node)
    requires Pair(n, f) && Finds(n, f)
    ensures Reply(n, f).AppendEntriesReply? && Reply(n, f).success
    ensures Received(n, f).log == Splice(f.log, Next(n, f.id) - 1, n.log[Next(n, f.id) - 1..])
  {
    hide Splice, OnAppendEntries, TermAt;
    var g, ae := f.(outbox := []), AppendTo(n, f.id).body;
    assert Consistent(g, ae);
    FoundBody(g, n.id, ae);
  }

  lemma FollowCommitKeeps(n: Node, ae: Body)
    requires ae.AppendEntries? && ae.prevLogIndex + |ae.entries| <= |n.log|
    ensures FollowCommit(n, ae).log == n.log && FollowCommit(n, ae).outbox == n.outbox
  {
  }

  lemma NotFound(n: Node, f: Node)
    requires Pair(n, f) && !Finds(n, f)
    ensures Reply(n, f) == AppendEntriesReply(n.term, false, |f.log|)
    ensures Received(n, f).log == f.log && Received(n, f).term == n.term && Received(n, f).id == f.id
  {
    hide Splice;
  }

  // One exchange: either the append is accepted, and then the follower holds the whole of the
  // leader's log, or it is refused, the follower's log stays as it was, and the leader's next
  // index drops, never below 1, and at once to the end of the follower's log or further.
  lemma Exchange(n: Node, f: Node)
    requires Pair(n, f) && Matching(n.log, f.log)
    ensures Reply(n, f).AppendEntriesReply?
    ensures Reply(n, f).success ==> n.log <= Received(n, f).log
    ensures !Reply(n, f).success ==>
              && Next(n, f.id) >= 2
              && 1 <= Next(Answered(n, f), f.id) < Next(n, f.id)
              && Next(Answered(n, f), f.id) <= |f.log| + 1
              && Received(n, f).log == f.log && Received(n, f).id == f.id
              && Pair(Answered(n, f), Received(n, f)) && Answered(n, f).log == n.log
  {
    hide Received, Splice, Reply, AppendTo;
    var prev := Next(n, f.id) - 1;
    if Finds(n, f) {
      Found(n, f);
      assert n.log[..prev] == f.log[..prev];
      SpliceReachesEnd(f.log, n.log, prev);
    } else {
      NotFound(n, f);
    }
  }

  lemma {:induction false} SpliceReachesEnd(log: seq<LogEntry>, l: seq<LogEntry>, prev: nat)
    requires prev <= |log| && prev <= |l| && l[..prev] == log[..prev] && Matching(l, log)
    ensures l <= Splice(log, prev, l[prev..])
  {
    hide MatchLength;
    var k := MatchLength(log, prev, l[prev..]);
    if k > 0 {
      assert l[prev..][k - 1] == l[prev + k - 1];
    }
    assert TermAt(l, prev + k) == TermAt(log, prev + k);
    assert l[..prev + k] == log[..prev + k];
    if k < |l[prev..]| {
      assert log[..prev + k] + l[prev..][k..] == l;
    }
  }

  // The exchange repeated until an append is accepted: the follower then, and how many were sent.
  ghost function Repair(n: Node, f: Node): (Node, nat)
    requires Pair(n, f) && Matching(n.log, f.log)
    decreases Next(n, f.id)
  {
    Exchange(n, f);
    if Reply(n, f).success then (Received(n, f), 1)
    else
      var (g, rounds) := Repair(Answered(n, f), Received(n, f));
      (g, rounds + 1)
  }

  // Repair ends within as many exchanges as the next index it starts from, and within two more
  // than the follower has entries, with the leader's log a prefix of the follower's.
  lemma {:induction false} RepairEnds(n: Node, f: Node)
    requires Pair(n, f) && Matching(n.log, f.log)
    ensures 1 <= Repair(n, f).1 <= Min(Next(n, f.id), |f.log| + 2)
    ensures n.log <= Repair(n, f).0.log
    decreases Next(n, f.id)
  {
    hide Received, Answered, Pair, Matching, Reply;
    Exchange(n, f);
    if !Reply(n, f).success {
      RepairEnds(Answered(n, f), Received(n, f));
    }
  }

  // In every reachable state the logs of a leader and any other node are fit for repair.
  lemma ReachableLogsMatch(run: seq<Cluster>, k: nat, a: NodeId, b: NodeId)
    requires IsRun(run) && k < |run| && a in run[k].nodes && b in run[k].nodes
    ensures Matching(run[k].nodes[a].log, run[k].nodes[b].log)
  {
    hide IsRun;
    var x, y := run[k].nodes[a].log, run[k].nodes[b].log;
    forall i: nat | i <= |x| && i <= |y| && TermAt(x, i) == TermAt(y, i) ensures x[..i] == y[..i] {
      LogMatching(run, k, k, a, b, i);
    }
  }

  // So repair ends between any leader and any node of no later term, in every reachable state.
  lemma RepairEndsInEveryState(run: seq<Cluster>, k: nat, a: NodeId, b: NodeId)
    requires IsRun(run) && k < |run| && a in run[k].nodes && b in run[k].nodes && a != b
    requires run[k].nodes[a].role == Leader && run[k].nodes[b].term <= run[k].nodes[a].term
    ensures var n, f := run[k].nodes[a], run[k].nodes[b];
            && Pair(n, f) && Matching(n.log, f.log)
            && n.log <= Repair(n, f).0.log && Repair(n, f).1 <= Min(Next(n, b), |f.log| + 2)
  {
    var n, f := run[k].nodes[a], run[k].nodes[b];
    PairInEveryState(run, k, a, b);
    ReachableLogsMatch(run, k, a, b);
    hide IsRun, Pair, Matching, Repair;
    RepairEnds(n, f);
  }

  lemma PairInEveryState(run: seq<Cluster>, k: nat, a: NodeId, b: NodeId)
    requires IsRun(run) && k < |run| && a in run[k].nodes && b in run[k].nodes && a != b
    requires run[k].nodes[a].role == Leader && run[k].nodes[b].term <= run[k].nodes[a].term
    ensures Pair(run[k].nodes[a], run[k].nodes[b]) && run[k].nodes[b].id == b
  {
    hide IsRun, HistoryOK;
    var hs := RunExplained(run);
    NodeAt(run, hs, k, a);
    NodeAt(run, hs, k, b);
  }
}
