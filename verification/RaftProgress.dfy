/** That a cluster can always go on (`imustore/raft/node.py`): from every reachable state a write on
    a leader can be committed and applied by any majority that knows no later term, and a leader
    for it can be elected.

    Whether a message arrives is the network's choice, so these say that a run can be continued
    in such a way, not that it must be. */
module RaftProgress {
  import opened Prelude
  import opened RaftMessages
  import opened RaftLog
  import opened RaftSpec
  import opened RaftCluster
  import opened RaftInvariant
  import opened RaftSteps
  import opened RaftTheorems
  import opened RaftRepair
  import opened RaftElections

  // ----- what one acknowledgement and one append do to the commit index -----

  // More than half of the cluster, the leader included, is known to hold the log up to `i`,
  // where it has an entry of the leader's own term.
  predicate HeldByMajority(ids: set<NodeId>, n: Node, i: nat) {
    && 0 < i <= |n.log| && n.log[i - 1].term == n.term
    && 2 * (1 + |set p | p in n.peers && p in n.matchIndex && n.matchIndex[p] >= i|) > |ids|
  }

  lemma CommittableIffHeld(ids: set<NodeId>, n: Node, i: nat)
    requires PeersAre(ids, n) && n.id in ids && 0 < i <= |n.log|
    ensures Committable(n, i) <==> HeldByMajority(ids, n, i)
  {
    var held := set p | p in n.peers && p in n.matchIndex && n.matchIndex[p] >= i;
    assert held == Holders(n, i);
    MajorityIsMoreThanHalf(ids, n, 1 + |held|);
  }

  // The leader commits up to the last entry a majority holds, and applies it all.
  lemma LeaderCommitsWhatMajorityHolds(ids: set<NodeId>, n: Node)
    requires PeersAre(ids, n) && n.id in ids && n.commitIndex <= n.lastApplied <= |n.log|
    ensures var m := AdvanceCommit(n);
            && n.commitIndex <= m.commitIndex <= m.lastApplied
            && (m.commitIndex > n.commitIndex ==> HeldByMajority(ids, m, m.commitIndex))
            && forall i :: m.commitIndex < i <= |n.log| ==> !HeldByMajority(ids, m, i)
  {
    AdvanceApplies(n);
    var c := CommitTarget(n, |n.log|);
    if c > n.commitIndex {
      CommittableIffHeld(ids, n, c);
    }
    var m := AdvanceCommit(n);
    forall i | m.commitIndex < i <= |n.log| ensures !HeldByMajority(ids, m, i) {
      CommittableIffHeld(ids, n, i);
    }
  }

  // A follower that takes an append knows what its leader knew to be committed, as far as the
  // append reaches, and applies it all.
  lemma FollowerCommitsWhatLeaderSays(f: Node, src: NodeId, ae: Body)
    requires ae.AppendEntries? && f.term <= ae.term && Consistent(f, ae) && f.commitIndex <= f.lastApplied
    requires ae.leaderCommit <= ae.prevLogIndex + |ae.entries|
    ensures var g := OnAppendEntries(f, src, ae);
            && g.commitIndex == Max(f.commitIndex, ae.leaderCommit) <= g.lastApplied
            && g.term == ae.term && g.leaderId == Some(ae.leaderId)
            && g.log == Splice(f.log, ae.prevLogIndex, ae.entries)
  {
    hide Splice, FollowCommit, TermAt;
    var m := Accepted(Deferring(f, ae), ae);
    TakesCommitIndex(m, ae);
  }

  lemma TakesCommitIndex(m: Node, ae: Body)
    requires ae.AppendEntries? && ae.leaderCommit <= ae.prevLogIndex + |ae.entries| <= |m.log|
    requires m.commitIndex <= m.lastApplied
    ensures var g := FollowCommit(m, ae);
            && g.commitIndex == Max(m.commitIndex, ae.leaderCommit) <= g.lastApplied
            && g.term == m.term && g.leaderId == m.leaderId && g.log == m.log
  {
  }

  // ----- steps between a leader and one follower -----

  ghost predicate Grown(run: seq<Cluster>, r: seq<Cluster>) {
    |run| > 0 && run <= r && IsRun(r)
  }

  lemma OneStep(run: seq<Cluster>, r: seq<Cluster>, a: Action) returns (q: seq<Cluster>)
    requires Grown(run, r) && Enabled(End(r), a)
    ensures Grown(run, q) && End(q) == Act(End(r), a)
  {
    hide Enabled, Act, Init;
    q := r + [Act(End(r), a)];
    assert Step(End(r), q[|r|]);
    assert forall k :: 0 <= k < |r| ==> q[k] == r[k];
  }

  lemma AppendArrives(s: Cluster, a: NodeId, b: NodeId)
    requires a in s.nodes && b in s.nodes && s.nodes[a].id == a && s.nodes[b].id == b
    requires Pair(s.nodes[a], s.nodes[b]) && s.nodes[b].commitIndex <= |s.nodes[b].log|
    requires AppendTo(s.nodes[a], b) in s.net && Matching(s.nodes[a].log, s.nodes[b].log)
    ensures var x := Deliver(AppendTo(s.nodes[a], b));
            && Enabled(s, x) && OnlyThese(s, Act(s, x), a, b)
            && Act(s, x).nodes[a] == s.nodes[a] && Act(s, x).nodes[b] == Received(s.nodes[a], s.nodes[b])
            && Envelope(b, a, Reply(s.nodes[a], s.nodes[b])) in Act(s, x).net
  {
    var n, f := s.nodes[a], s.nodes[b];
    ReceivedReplies(n, f);
    hide OnAppendEntries, Reply;
    var x := Deliver(AppendTo(n, b));
    assert Acted(f.(outbox := []), x) == Received(n, f);
  }

  lemma ReceivedReplies(n: Node, f: Node)
    requires Pair(n, f)
    ensures Received(n, f).id == f.id && Received(n, f).outbox == [Envelope(f.id, n.id, Reply(n, f))]
  {
    hide Splice;
  }

  lemma ReplyArrives(s: Cluster, a: NodeId, b: NodeId, reply: Body)
    requires a in s.nodes && b in s.nodes && a != b && s.nodes[a].id == a && s.nodes[a].commitIndex <= |s.nodes[a].log|
    requires reply.AppendEntriesReply? && Envelope(b, a, reply) in s.net
    requires s.nodes[a].role == Leader && reply.term == s.nodes[a].term
    ensures var x := Deliver(Envelope(b, a, reply));
            && Enabled(s, x) && OnlyThese(s, Act(s, x), a, b) && Act(s, x).nodes[b] == s.nodes[b]
            && Act(s, x).nodes[a] == OnAppendEntriesReply(s.nodes[a].(outbox := []), b, reply)
            && forall e :: e in Act(s, x).nodes[a].outbox ==> e in Act(s, x).net
  {
    hide AdvanceCommit;
    var n := s.nodes[a].(outbox := []);
    AdvanceApplies(Matched(n, b, reply.matchIndex));
  }

  // ----- bringing one follower up to the leader's log -----

  // The leader is as it was, but for what it knows of `b` and of what is committed.
  ghost predicate StillLeads(n: Node, m: Node, b: NodeId) {
    && m.id == n.id && m.role == Leader && m.term == n.term && m.log == n.log && m.peers == n.peers
    && forall p :: p != b ==> Match(m, p) == Match(n, p)
  }

  // The end of the log is committed, unless no majority is known to hold it.
  predicate Settled(m: Node) {
    m.commitIndex == |m.log| || !Committable(m, |m.log|)
  }

  // `b` holds the leader's log and the leader knows it.
  ghost predicate Caught(s: Cluster, a: NodeId, b: NodeId, t: Cluster) {
    && a in s.nodes && b in s.nodes && OnlyThese(s, t, a, b)
    && var n, m, g := s.nodes[a], t.nodes[a], t.nodes[b];
    && StillLeads(n, m, b) && Settled(m)
    && Match(m, b) == |n.log| && Next(m, b) == |n.log| + 1
    && g.term == n.term && n.log <= g.log
  }

  lemma AckCounts(n: Node, b: NodeId)
    requires n.role == Leader && n.commitIndex <= |n.log|
    ensures var m := OnAppendEntriesReply(n.(outbox := []), b, AppendEntriesReply(n.term, true, |n.log|));
            StillLeads(n, m, b) && Settled(m) && Match(m, b) == |n.log| && Next(m, b) == |n.log| + 1
  {
    var x := Matched(n.(outbox := []), b, |n.log|);
    var m := AdvanceCommit(x);
    AdvanceApplies(x);
    assert Holders(m, |m.log|) == Holders(x, |x.log|);
  }

  lemma FoundIsTaken(n: Node, f: Node)
    requires Pair(n, f) && Matching(n.log, f.log) && Finds(n, f)
    ensures Reply(n, f) == AppendEntriesReply(n.term, true, |n.log|)
    ensures Received(n, f).term == n.term && n.log <= Received(n, f).log
  {
    hide Splice, OnAppendEntries, Matching;
    Exchange(n, f);
    Found(n, f);
    var g, ae := f.(outbox := []), AppendTo(n, f.id).body;
    FoundBody(g, n.id, ae);
    AppendKeeps(g, n.id, ae);
  }

  // The two nodes and their logs are fit for an exchange.
  lemma ReadyToExchange(r: seq<Cluster>, a: NodeId, b: NodeId)
    requires |r| > 0 && IsRun(r) && a in End(r).nodes && b in End(r).nodes && a != b
    requires End(r).nodes[a].role == Leader && End(r).nodes[b].term <= End(r).nodes[a].term
    ensures var n, f := End(r).nodes[a], End(r).nodes[b];
            && n.id == a && f.id == b && Pair(n, f) && Matching(n.log, f.log)
            && f.commitIndex <= |f.log| && n.commitIndex <= |n.log|
  {
    hide IsRun, Matching, Pair;
    StateAt(r, a);
    StateAt(r, b);
    PairInEveryState(r, |r| - 1, a, b);
    ReachableLogsMatch(r, |r| - 1, a, b);
  }

  // The follower finds the previous entry: it takes the rest and the leader learns of it.
  lemma LastExchange(run: seq<Cluster>, r: seq<Cluster>, a: NodeId, b: NodeId) returns (q: seq<Cluster>)
    requires Grown(run, r) && a in End(r).nodes && b in End(r).nodes && a != b
    requires var n, f := End(r).nodes[a], End(r).nodes[b];
             && n.role == Leader && f.term <= n.term && AppendTo(n, b) in End(r).net && Finds(n, f)
    ensures Grown(run, q) && Caught(End(r), a, b, End(q))
  {
    hide IsRun, Enabled, Act, Matching, Finds, Received, Reply, OnAppendEntriesReply, Match, Next, AppendTo, Settled;
    var s := End(r);
    ReadyToExchange(r, a, b);
    var n, f := s.nodes[a], s.nodes[b];
    FoundIsTaken(n, f);
    AppendArrives(s, a, b);
    q := OneStep(run, r, Deliver(AppendTo(n, b)));
    ReplyArrives(End(q), a, b, Reply(n, f));
    AckCounts(n, b);
    q := OneStep(run, q, Deliver(Envelope(b, a, Reply(n, f))));
  }

  // It does not: the leader backs off and sends again.
  lemma FailedExchange(run: seq<Cluster>, r: seq<Cluster>, a: NodeId, b: NodeId) returns (q: seq<Cluster>)
    requires Grown(run, r) && a in End(r).nodes && b in End(r).nodes && a != b
    requires var n, f := End(r).nodes[a], End(r).nodes[b];
             && n.role == Leader && f.term <= n.term && AppendTo(n, b) in End(r).net && !Finds(n, f)
    ensures Grown(run, q) && OnlyThese(End(r), End(q), a, b)
    ensures var n, m, g := End(r).nodes[a], End(q).nodes[a], End(q).nodes[b];
            && StillLeads(n, m, b) && g.term == n.term && AppendTo(m, b) in End(q).net
            && Next(m, b) < Next(n, b)
  {
    hide IsRun, Enabled, Act, Matching, Finds, Received, Reply, OnAppendEntriesReply, AppendTo;
    var s := End(r);
    ReadyToExchange(r, a, b);
    var n, f := s.nodes[a], s.nodes[b];
    NotFound(n, f);
    AppendArrives(s, a, b);
    q := OneStep(run, r, Deliver(AppendTo(n, b)));
    ReplyArrives(End(q), a, b, Reply(n, f));
    RefusalBacksOff(n, b, |f.log|);
    Exchange(n, f);
    q := OneStep(run, q, Deliver(Envelope(b, a, Reply(n, f))));
  }

  lemma RefusalBacksOff(n: Node, b: NodeId, index: nat)
    requires n.role == Leader && n.commitIndex <= |n.log|
    ensures var m := OnAppendEntriesReply(n.(outbox := []), b, AppendEntriesReply(n.term, false, index));
            StillLeads(n, m, b) && m.outbox == [AppendTo(m, b)]
  {
  }

  lemma {:induction false} CatchUp(run: seq<Cluster>, r: seq<Cluster>, a: NodeId, b: NodeId) returns (q: seq<Cluster>)
    requires Grown(run, r) && a in End(r).nodes && b in End(r).nodes && a != b
    requires var n, f := End(r).nodes[a], End(r).nodes[b];
             n.role == Leader && f.term <= n.term && AppendTo(n, b) in End(r).net
    ensures Grown(run, q) && Caught(End(r), a, b, End(q))
    decreases Next(End(r).nodes[a], b)
  {
    hide IsRun, Finds, Match, Next, AppendTo, Settled;
    if Finds(End(r).nodes[a], End(r).nodes[b]) {
      q := LastExchange(run, r, a, b);
    } else {
      var p := FailedExchange(run, r, a, b);
      q := CatchUp(run, p, a, b);
    }
  }

  // ----- one follower, then all of them -----

  lemma HeartbeatSends(s: Cluster, a: NodeId, b: NodeId)
    requires a in s.nodes && s.nodes[a].id == a && s.nodes[a].role == Leader && b in s.nodes[a].peers
    requires s.nodes[a].commitIndex <= |s.nodes[a].log|
    ensures var x := HeartbeatTimeout(a);
            && Enabled(s, x) && OnlyThese(s, Act(s, x), a, a)
            && Act(s, x).nodes[a].(outbox := []) == s.nodes[a].(outbox := [])
            && AppendTo(s.nodes[a], b) in Act(s, x).net
  {
    hide AppendTo;
    var n := s.nodes[a].(outbox := []);
    var m := BroadcastAppend(n);
    var i :| 0 <= i < |n.peers| && n.peers[i] == b;
    assert m.outbox[i] == AppendTo(n, b);
    AppendIgnoresOutbox(s.nodes[a], b);
  }

  lemma AppendIgnoresOutbox(n: Node, b: NodeId)
    ensures AppendTo(n.(outbox := []), b) == AppendTo(n, b)
  {
  }

  // A heartbeat, and then as many exchanges as it takes.
  lemma Replicate(run: seq<Cluster>, r: seq<Cluster>, a: NodeId, b: NodeId) returns (q: seq<Cluster>)
    requires Grown(run, r) && a in End(r).nodes && b in End(r).nodes && a != b
    requires End(r).nodes[a].role == Leader && End(r).nodes[b].term <= End(r).nodes[a].term
    ensures Grown(run, q) && Caught(End(r), a, b, End(q))
  {
    hide IsRun, Enabled, Act, Committable, AppendTo;
    var s := End(r);
    StateAt(r, a);
    assert b in Members(s.nodes[a].peers);
    HeartbeatSends(s, a, b);
    var p := OneStep(run, r, HeartbeatTimeout(a));
    AppendIgnoresOutbox(s.nodes[a], b);
    AppendIgnoresOutbox(End(p).nodes[a], b);
    q := CatchUp(run, p, a, b);
    CaughtSince(s, End(p), a, b, End(q));
  }

  lemma CaughtSince(s: Cluster, u: Cluster, a: NodeId, b: NodeId, t: Cluster)
    requires a in s.nodes && OnlyThese(s, u, a, a) && u.nodes[a].(outbox := []) == s.nodes[a].(outbox := [])
    requires Caught(u, a, b, t)
    ensures Caught(s, a, b, t)
  {
    hide Committable;
  }

  // Each of `qs` holds the leader's log and the leader knows it; the others are as they were.
  ghost predicate AllCaught(s: Cluster, a: NodeId, qs: seq<NodeId>, t: Cluster) {
    && a in s.nodes && a in t.nodes && t.nodes.Keys == s.nodes.Keys && s.net <= t.net
    && var n, m := s.nodes[a], t.nodes[a];
    && m.id == n.id && m.role == Leader && m.term == n.term && m.log == n.log && m.peers == n.peers
    && Settled(m)
    && (forall q :: q in qs ==> q in t.nodes && Holds(m, t.nodes[q], q))
    && (forall x :: x in s.nodes && x != a && x !in qs ==> t.nodes[x] == s.nodes[x])
  }

  predicate Holds(m: Node, g: Node, q: NodeId) {
    Match(m, q) == |m.log| && g.term == m.term && m.log <= g.log
  }

  lemma {:induction false} ReplicateAll(run: seq<Cluster>, r: seq<Cluster>, a: NodeId, qs: seq<NodeId>)
      returns (q: seq<Cluster>)
    requires Grown(run, r) && a in End(r).nodes && NoDuplicates(qs) && a !in qs
    requires End(r).nodes[a].role == Leader && Settled(End(r).nodes[a])
    requires forall b :: b in qs ==> b in End(r).nodes && End(r).nodes[b].term <= End(r).nodes[a].term
    ensures Grown(run, q) && AllCaught(End(r), a, qs, End(q))
    decreases |qs|
  {
    hide IsRun, Settled, Match, Next;
    if qs == [] {
      q := r;
    } else {
      var init, b := qs[..|qs| - 1], qs[|qs| - 1];
      var p := ReplicateAll(run, r, a, init);
      assert b !in init && forall x :: x in init ==> x in qs;
      q := Replicate(run, p, a, b);
      OneMoreCaught(End(r), End(p), a, init, b, End(q));
      assert qs == init + [b];
    }
  }

  lemma OneMoreCaught(s: Cluster, u: Cluster, a: NodeId, qs: seq<NodeId>, b: NodeId, t: Cluster)
    requires AllCaught(s, a, qs, u) && Caught(u, a, b, t) && b !in qs && a !in qs && a != b
    ensures AllCaught(s, a, qs + [b], t)
  {
    hide Settled, Match, Next;
    var m := t.nodes[a];
    forall q | q in qs + [b] ensures q in t.nodes && Holds(m, t.nodes[q], q) {
      if q != b {
        assert q in qs;
        assert Holds(u.nodes[a], u.nodes[q], q) && t.nodes[q] == u.nodes[q];
        assert Match(m, q) == Match(u.nodes[a], q);
      }
    }
  }

  // Once a majority is caught up with a log that ends in the leader's own term, all of it is
  // committed.
  lemma CaughtIsCommitted(ids: set<NodeId>, m: Node, qs: seq<NodeId>)
    requires PeersAre(ids, m) && m.id in ids && Settled(m) && m.log != [] && m.log[|m.log| - 1].term == m.term
    requires NoDuplicates(qs) && 2 * (|qs| + 1) > |ids|
    requires forall q :: q in qs ==> q in m.peers && Match(m, q) == |m.log|
    ensures m.commitIndex == |m.log|
  {
    hide HasMajority, Match;
    DistinctSize(qs);
    assert Members(qs) <= Holders(m, |m.log|);
    SubsetSize(Members(qs), Holders(m, |m.log|));
    MajorityIsMoreThanHalf(ids, m, 1 + |Holders(m, |m.log|)|);
  }

  // ----- telling the followers what is committed -----

  // `g` holds all of `m`'s log and knows it to be committed.
  predicate Follows(g: Node, m: Node) {
    m.log <= g.log && |m.log| <= g.commitIndex
  }

  // One more heartbeat delivered to a follower that is caught up.
  lemma Tell(run: seq<Cluster>, r: seq<Cluster>, a: NodeId, b: NodeId) returns (q: seq<Cluster>)
    requires Grown(run, r) && a in End(r).nodes && b in End(r).nodes && a != b
    requires var n, f := End(r).nodes[a], End(r).nodes[b];
             n.role == Leader && f.term <= n.term && n.log <= f.log && n.commitIndex == |n.log|
    ensures Grown(run, q) && OnlyThese(End(r), End(q), a, b)
    ensures End(q).nodes[a].(outbox := []) == End(r).nodes[a].(outbox := [])
    ensures Follows(End(q).nodes[b], End(q).nodes[a])
  {
    hide IsRun, Enabled, Act, AppendTo, Received, Reply, Matching, Next;
    var s := End(r);
    StateAt(r, a);
    StateAt(r, b);
    assert b in Members(s.nodes[a].peers);
    HeartbeatSends(s, a, b);
    q := OneStep(run, r, HeartbeatTimeout(a));
    AppendIgnoresOutbox(s.nodes[a], b);
    AppendIgnoresOutbox(End(q).nodes[a], b);
    var n, f := End(q).nodes[a], End(q).nodes[b];
    ReadyToExchange(q, a, b);
    AppendArrives(End(q), a, b);
    TellNode(n, f);
    q := OneStep(run, q, Deliver(AppendTo(n, b)));
  }

  lemma TellNode(n: Node, f: Node)
    requires Pair(n, f) && Matching(n.log, f.log) && n.log <= f.log && n.commitIndex == |n.log|
    requires f.commitIndex <= f.lastApplied
    ensures Follows(Received(n, f), n)
  {
    hide OnAppendEntries, Splice, Matching, Reply;
    var prev := Next(n, f.id) - 1;
    assert TermAt(f.log, prev) == TermAt(n.log, prev);
    FoundIsTaken(n, f);
    FollowerCommitsWhatLeaderSays(f.(outbox := []), n.id, AppendTo(n, f.id).body);
  }

  ghost predicate AllFollow(s: Cluster, a: NodeId, qs: seq<NodeId>, t: Cluster) {
    && a in s.nodes && a in t.nodes && t.nodes.Keys == s.nodes.Keys
    && t.nodes[a].(outbox := []) == s.nodes[a].(outbox := [])
    && (forall q :: q in qs ==> q in t.nodes && Follows(t.nodes[q], t.nodes[a]))
    && (forall x :: x in s.nodes && x != a && x !in qs ==> t.nodes[x] == s.nodes[x])
  }

  lemma {:induction false} TellAll(run: seq<Cluster>, r: seq<Cluster>, a: NodeId, qs: seq<NodeId>)
      returns (q: seq<Cluster>)
    requires Grown(run, r) && a in End(r).nodes && NoDuplicates(qs) && a !in qs
    requires var n := End(r).nodes[a];
             && n.role == Leader && n.commitIndex == |n.log|
             && forall b :: b in qs ==> b in End(r).nodes && Holds(n, End(r).nodes[b], b)
    ensures Grown(run, q) && AllFollow(End(r), a, qs, End(q))
    decreases |qs|
  {
    hide IsRun, Match, Follows;
    if qs == [] {
      q := r;
    } else {
      var init, b := qs[..|qs| - 1], qs[|qs| - 1];
      assert qs == init + [b];
      assert b !in init && forall x :: x in init ==> x in qs;
      var p := TellAll(run, r, a, init);
      assert Holds(End(r).nodes[a], End(r).nodes[b], b) && End(p).nodes[b] == End(r).nodes[b];
      q := Tell(run, p, a, b);
      OneMoreFollows(End(r), End(p), a, init, b, End(q));
    }
  }

  lemma OneMoreFollows(s: Cluster, u: Cluster, a: NodeId, qs: seq<NodeId>, b: NodeId, t: Cluster)
    requires AllFollow(s, a, qs, u) && OnlyThese(u, t, a, b) && b !in qs && a !in qs && a != b && b in u.nodes
    requires t.nodes[a].(outbox := []) == u.nodes[a].(outbox := []) && Follows(t.nodes[b], t.nodes[a])
    ensures AllFollow(s, a, qs + [b], t)
  {
    forall q | q in qs + [b] ensures q in t.nodes && Follows(t.nodes[q], t.nodes[a]) {
      if q != b {
        assert q in qs && Follows(u.nodes[q], u.nodes[a]) && t.nodes[q] == u.nodes[q];
      }
    }
  }

  // ----- a write, committed and applied -----

  predicate AppliedAt(n: Node, i: nat, command: Command) {
    0 < i <= |n.applied| && n.applied[i - 1] == Application(i, command)
  }

  lemma CommittedIsApplied(r: seq<Cluster>, x: NodeId, i: nat)
    requires |r| > 0 && IsRun(r) && x in End(r).nodes && 0 < i <= End(r).nodes[x].commitIndex
    ensures i <= |End(r).nodes[x].log| && AppliedAt(End(r).nodes[x], i, End(r).nodes[x].log[i - 1].command)
  {
    hide IsRun;
    StateAt(r, x);
    AppliedExactlyOnce(r, |r| - 1, x);
  }

  // A leader's log after a write, and the end of it settled.
  lemma WriteStep(s: Cluster, a: NodeId, command: Command)
    requires a in s.nodes && s.nodes[a].id == a && s.nodes[a].role == Leader
    requires s.nodes[a].commitIndex <= |s.nodes[a].log|
    ensures var x := ClientWrite(a, command);
            && Enabled(s, x) && OnlyThese(s, Act(s, x), a, a)
            && var n, m := s.nodes[a], Act(s, x).nodes[a];
            && m.id == a && m.role == Leader && m.term == n.term && m.log == n.log + [LogEntry(n.term, command)]
            && Settled(m)
  {
    hide Committable;
    var n := s.nodes[a].(outbox := []);
    var b := BroadcastAppend(Persist(n.(log := n.log + [LogEntry(n.term, command)])));
    AdvanceSettles(b);
    AdvanceApplies(b);
  }

  lemma AdvanceSettles(n: Node)
    requires n.commitIndex <= |n.log|
    ensures Settled(AdvanceCommit(n))
  {
    AdvanceApplies(n);
    assert Holders(AdvanceCommit(n), |n.log|) == Holders(n, |n.log|);
  }

  // The write logged, replicated to `qs` and committed by the leader.
  ghost predicate WriteCommitted(s: Cluster, a: NodeId, command: Command, qs: seq<NodeId>, t: Cluster) {
    && a in s.nodes && a in t.nodes && t.nodes.Keys == s.nodes.Keys
    && var n, m := s.nodes[a], t.nodes[a];
    && m.role == Leader && m.log == n.log + [LogEntry(n.term, command)] && m.commitIndex == |m.log|
    && (forall q :: q in qs ==> q in t.nodes && Holds(m, t.nodes[q], q))
    && (forall x :: x in s.nodes && x != a && x !in qs ==> t.nodes[x] == s.nodes[x])
  }

  lemma CommitWrite(run: seq<Cluster>, a: NodeId, command: Command, qs: seq<NodeId>) returns (r: seq<Cluster>)
    requires |run| > 0 && IsRun(run) && a in End(run).nodes && End(run).nodes[a].role == Leader
    requires NoDuplicates(qs) && a !in qs && 2 * (|qs| + 1) > |End(run).nodes.Keys|
    requires forall b :: b in qs ==> b in End(run).nodes && End(run).nodes[b].term <= End(run).nodes[a].term
    ensures Grown(run, r) && WriteCommitted(End(run), a, command, qs, End(r))
  {
    hide IsRun, Enabled, Act, Settled, Match;
    var s := End(run);
    StateAt(run, a);
    WriteStep(s, a, command);
    var p := OneStep(run, run, ClientWrite(a, command));
    r := ReplicateAll(run, p, a, qs);
    StateAt(r, a);
    var m := End(r).nodes[a];
    forall q | q in qs ensures q in m.peers && Match(m, q) == |m.log| {
      assert Holds(m, End(r).nodes[q], q) && q in Members(m.peers);
    }
    CaughtIsCommitted(s.nodes.Keys, m, qs);
  }

  // A write can be committed: in every reachable state, a leader and any nodes of no later term
  // that are with it more than half of the cluster can log a command, commit it and apply it at
  // the next index of the leader's log, whatever the other nodes do.
  lemma WriteCanBeApplied(run: seq<Cluster>, a: NodeId, command: Command, qs: seq<NodeId>)
      returns (r: seq<Cluster>)
    requires |run| > 0 && IsRun(run) && a in End(run).nodes && End(run).nodes[a].role == Leader
    requires NoDuplicates(qs) && a !in qs && 2 * (|qs| + 1) > |End(run).nodes.Keys|
    requires forall b :: b in qs ==> b in End(run).nodes && End(run).nodes[b].term <= End(run).nodes[a].term
    ensures Grown(run, r) && End(r).nodes.Keys == End(run).nodes.Keys
    ensures var s, t := End(run), End(r);
            && (forall x :: x == a || x in qs ==> AppliedAt(t.nodes[x], |s.nodes[a].log| + 1, command))
            && (forall x :: x in s.nodes && x != a && x !in qs ==> t.nodes[x] == s.nodes[x])
  {
    hide IsRun, AppliedAt, Match;
    var s := End(run);
    r := CommitWrite(run, a, command, qs);
    r := TellAll(run, r, a, qs);
    var i := |s.nodes[a].log| + 1;
    var m := End(r).nodes[a];
    assert m.log == s.nodes[a].log + [LogEntry(s.nodes[a].term, command)];
    forall x | x == a || x in qs ensures AppliedAt(End(r).nodes[x], i, command) {
      assert x in qs ==> Follows(End(r).nodes[x], m);
      CommittedIsApplied(r, x, i);
    }
  }

  // ----- a leader for it -----

  // Some log of a list is not behind any other.
  lemma {:induction false} Freshest(s: Cluster, ws: seq<NodeId>) returns (i: nat)
    requires ws != [] && forall x :: x in ws ==> x in s.nodes
    ensures i < |ws| && forall x :: x in ws ==> NotBehind(s.nodes[ws[i]].log, s.nodes[x].log)
  {
    if |ws| == 1 {
      i := 0;
    } else {
      var init, w := ws[..|ws| - 1], ws[|ws| - 1];
      assert forall x :: x in init ==> x in ws;
      assert forall x :: x in ws ==> x in init || x == w;
      i := Freshest(s, init);
      var c := init[i];
      if !NotBehind(s.nodes[c].log, s.nodes[w].log) {
        forall x | x in ws ensures NotBehind(s.nodes[w].log, s.nodes[x].log) {
          assert x in init ==> NotBehind(s.nodes[c].log, s.nodes[x].log);
        }
        i := |ws| - 1;
      }
    }
  }

  // Node `c` alone has changed, in nothing that concerns its log.
  predicate OnlySelf(s: Cluster, t: Cluster, c: NodeId) {
    && c in s.nodes && OnlyThese(s, t, c, c) && t.nodes[c].peers == s.nodes[c].peers
    && (t.nodes[c].role == Leader || t.nodes[c].log == s.nodes[c].log)
  }

  lemma RebootStep(s: Cluster, c: NodeId)
    requires c in s.nodes && s.nodes[c].id == c && s.nodes[c].commitIndex <= |s.nodes[c].log|
    ensures Enabled(s, Reboot(c)) && OnlySelf(s, Act(s, Reboot(c)), c) && Act(s, Reboot(c)).nodes[c].role == Follower
  {
  }

  lemma TimeoutStep(s: Cluster, c: NodeId)
    requires c in s.nodes && s.nodes[c].id == c && s.nodes[c].commitIndex <= |s.nodes[c].log|
    requires s.nodes[c].role != Leader
    ensures var t := Act(s, ElectionTimeout(c));
            && Enabled(s, ElectionTimeout(c)) && OnlySelf(s, t, c) && t.nodes[c].term == s.nodes[c].term + 1
            && t.nodes[c].role == if s.nodes[c].peers == [] then Leader else Candidate
  {
    hide BecomeCandidate;
    TimeoutAsksEveryPeer(s.nodes[c].(outbox := []));
  }

  // Timing out again and again until its term is above `bound`.
  lemma {:induction false} Campaign(run: seq<Cluster>, r: seq<Cluster>, c: NodeId, bound: nat)
      returns (q: seq<Cluster>)
    requires Grown(run, r) && c in End(r).nodes && End(r).nodes[c].role != Leader
    requires End(r).nodes[c].peers == [] ==> bound == 0
    ensures Grown(run, q) && OnlySelf(End(r), End(q), c) && End(q).nodes[c].term > bound
    ensures End(q).nodes[c].role == if End(r).nodes[c].peers == [] then Leader else Candidate
    decreases bound - End(r).nodes[c].term
  {
    hide IsRun, Enabled, Act;
    StateAt(r, c);
    TimeoutStep(End(r), c);
    q := OneStep(run, r, ElectionTimeout(c));
    if End(q).nodes[c].term <= bound {
      var p := q;
      q := Campaign(run, p, c, bound);
    }
  }

  ghost function HighestTerm(s: Cluster, ws: seq<NodeId>): (t: nat)
    ensures forall x :: x in ws && x in s.nodes ==> s.nodes[x].term <= t
  {
    if ws == [] then 0
    else
      var w := ws[|ws| - 1];
      assert forall x :: x in ws ==> x in ws[..|ws| - 1] || x == w;
      Max(HighestTerm(s, ws[..|ws| - 1]), if w in s.nodes then s.nodes[w].term else 0)
  }

  lemma NoPeersMeansAlone(ids: set<NodeId>, n: Node)
    requires PeersAre(ids, n) && n.id in ids && n.peers == []
    ensures ids == {n.id}
  {
    assert Members(n.peers) == {};
  }

  // A node whose log is not behind those of `vs` comes to lead them.
  lemma Elect(run: seq<Cluster>, c: NodeId, vs: seq<NodeId>) returns (r: seq<Cluster>)
    requires |run| > 0 && IsRun(run) && c in End(run).nodes
    requires NoDuplicates(vs) && c !in vs && 2 * (|vs| + 1) > |End(run).nodes.Keys|
    requires forall v :: v in vs ==>
               v in End(run).nodes && NotBehind(End(run).nodes[c].log, End(run).nodes[v].log)
    ensures Grown(run, r) && End(r).nodes.Keys == End(run).nodes.Keys && End(r).nodes[c].role == Leader
    ensures forall v :: v in vs ==> End(r).nodes[v].term <= End(r).nodes[c].term
    ensures forall x :: x in End(run).nodes && x != c && x !in vs ==> End(r).nodes[x] == End(run).nodes[x]
  {
    hide IsRun, Enabled, Act, NotBehind, Ballot;
    var s := End(run);
    StateAt(run, c);
    RebootStep(s, c);
    r := OneStep(run, run, Reboot(c));
    var alone := s.nodes[c].peers == [];
    var bound := if alone then 0 else HighestTerm(s, vs);
    r := Campaign(run, r, c, bound);
    if alone {
      NoPeersMeansAlone(s.nodes.Keys, s.nodes[c]);
      assert forall v :: v in vs ==> v in s.nodes.Keys;
    } else {
      var u := End(r);
      forall v | v in vs ensures v in u.nodes && Free(u.nodes[v], u.nodes[c].term, c) {
        assert u.nodes[v] == s.nodes[v];
      }
      StateAt(r, c);
      var p := r;
      r := ElectionIsWon(p, c, vs);
    }
  }

  // The cluster is never stuck: from every reachable state, the nodes `ws` of any majority can,
  // without any other node taking a step, elect one of themselves and all apply a given command,
  // each at the same index.
  lemma MajorityCanAlwaysWrite(run: seq<Cluster>, ws: seq<NodeId>, command: Command)
      returns (r: seq<Cluster>, i: nat)
    requires |run| > 0 && IsRun(run)
    requires NoDuplicates(ws) && 2 * |ws| > |End(run).nodes.Keys|
    requires forall x :: x in ws ==> x in End(run).nodes
    ensures Grown(run, r) && End(r).nodes.Keys == End(run).nodes.Keys
    ensures forall x :: x in ws ==> AppliedAt(End(r).nodes[x], i, command)
    ensures forall x :: x in End(run).nodes && x !in ws ==> End(r).nodes[x] == End(run).nodes[x]
  {
    hide IsRun, AppliedAt, NotBehind;
    var j := Freshest(End(run), ws);
    var c, vs := ws[j], ws[..j] + ws[j + 1..];
    assert forall x :: x in ws <==> x == c || x in vs by {
      assert ws == ws[..j] + [c] + ws[j + 1..];
    }
    var p := Elect(run, c, vs);
    r := WriteCanBeApplied(p, c, command, vs);
    i := |End(p).nodes[c].log| + 1;
  }
}
