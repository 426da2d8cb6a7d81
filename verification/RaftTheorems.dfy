/** Raft's safety properties, over every run of a cluster and with no ghost state in sight. */
module RaftTheorems {
  import opened Prelude
  import opened RaftMessages
  import opened RaftLog
  import opened RaftSpec
  import opened RaftCluster
  import opened RaftInvariant
  import opened RaftSteps
  import opened RaftHandlers

  // ----- the invariant along a run -----

  predicate Saved(n: Node) {
    n.savedTerm == n.term && n.savedVote == n.votedFor
  }

  lemma AdvanceSaves(n: Node)
    requires n.commitIndex <= |n.log|
    ensures Saved(AdvanceCommit(n)) == Saved(n)
  {
    hide CommitTarget, Committable;
  }

  lemma LeaderSaves(n: Node)
    requires n.commitIndex <= |n.log|
    ensures Saved(BecomeLeader(n))
  {
    hide AdvanceCommit;
    AdvanceSaves(BroadcastAppend(AsLeader(n)));
  }

  lemma MessageSaves(n: Node, src: NodeId, body: Body)
    requires Saved(n) && n.commitIndex <= |n.log|
    ensures Saved(OnMessage(n, src, body))
  {
    hide AdvanceCommit, BecomeLeader, Splice, FollowCommit;
    match body
    case RequestVote(_, _, _, _) =>
    case RequestVoteReply(_, _) => LeaderSaves(n.(votes := n.votes + {src}));
    case AppendEntries(_, _, _, _, _, _) =>
    case AppendEntriesReply(_, _, index) => AdvanceSaves(Matched(n, src, index));
  }

  // Every handler saves the term and the vote it ends with before its messages leave.
  lemma ActSaves(s: Cluster, a: Action)
    requires AllSaved(s) && Enabled(s, a)
    ensures AllSaved(Act(s, a))
  {
    hide AdvanceCommit, BecomeLeader, OnMessage;
    var n := s.nodes[Actor(a)].(outbox := []);
    match a
    case Deliver(env) => MessageSaves(n, env.src, env.body);
    case ElectionTimeout(_) => LeaderSaves(AsCandidate(n));
    case HeartbeatTimeout(_) =>
    case ClientWrite(_, command) =>
      AdvanceSaves(BroadcastAppend(Persist(n.(log := n.log + [LogEntry(n.term, command)]))));
    case Reboot(_) =>
  }

  const NoHistory := History(map[], map[], map[], map[], map[])

  lemma InitInv(s: Cluster)
    requires Init(s)
    ensures Inv(s, NoHistory) && AllSaved(s)
  {
    forall i | i in s.nodes ensures NodeOK(s.nodes.Keys, NoHistory, s.nodes[i]) {
      assert s.nodes[i] == Fresh(i, s.nodes[i].peers, 0, None, [], []);
    }
  }

  // The history beside each state of a run.
  ghost predicate Explains(run: seq<Cluster>, hs: seq<History>) {
    && |hs| == |run|
    && (forall k :: 0 <= k < |run| ==> Inv(run[k], hs[k]) && AllSaved(run[k]))
    && (forall i, j :: 0 <= i <= j < |run| ==> Grows(hs[i], hs[j]))
    && (forall k :: 0 <= k < |run| ==> run[k].nodes.Keys == run[0].nodes.Keys)
  }

  lemma {:induction false} RunExplained(run: seq<Cluster>) returns (hs: seq<History>)
    requires IsRun(run)
    ensures Explains(run, hs)
    decreases |run|
  {
    hide Inv, Grows, Init, AllSaved, Enabled, Act;
    if |run| == 1 {
      InitInv(run[0]);
      hs := [NoHistory];
      NoGrowth(NoHistory, 0, 0);
    } else {
      var k := |run| - 2;
      var init := run[..|run| - 1];
      assert forall i :: 0 <= i < |init| ==> init[i] == run[i];
      assert IsRun(init);
      var gs := RunExplained(init);
      assert Step(run[k], run[k + 1]);
      var a :| Enabled(run[k], a) && run[k + 1] == Act(run[k], a);
      assert init[k] == run[k];
      var h := ActKeepsInv(run[k], gs[k], a);
      ActSaves(run[k], a);
      hs := gs + [h];
      NoGrowth(h, 0, 0);
      forall i, j | 0 <= i <= j < |run| ensures Grows(hs[i], hs[j]) {
        if j == k + 1 && i <= k {
          GrowsTransitive(gs[i], gs[k], h);
        }
      }
    }
  }

  // ----- reading the invariant -----

  lemma NodeAt(run: seq<Cluster>, hs: seq<History>, k: nat, a: NodeId)
    requires Explains(run, hs) && k < |run| && a in run[k].nodes
    ensures run[k].nodes[a].id == a
    ensures NodeOK(run[0].nodes.Keys, hs[k], run[k].nodes[a]) && HistoryOK(run[0].nodes.Keys, hs[k])
  {
    hide NodeOK, HistoryOK, MessageOK, Grows;
    assert Inv(run[k], hs[k]);
  }

  lemma AppendAt(run: seq<Cluster>, hs: seq<History>, k: nat, e: Envelope)
    requires Explains(run, hs) && k < |run| && e in run[k].net && e.body.AppendEntries?
    ensures AppendOK(hs[k], e.src, e.body)
  {
    hide NodeOK, HistoryOK, Grows, AppendOK;
    assert Inv(run[k], hs[k]);
    assert MessageOK(run[k].nodes, hs[k], e);
  }

  lemma RootedLater(h: History, h': History, l: seq<LogEntry>)
    requires Grows(h, h') && Rooted(h.logs, l)
    ensures Rooted(h'.logs, l)
  {
    if |l| > 0 {
      var t := LastTerm(l);
      assert h'.logs[t][..|l|] == h.logs[t][..|l|];
    }
  }

  lemma CommittedLater(h: History, h': History, p: seq<LogEntry>, t: nat)
    requires Grows(h, h') && Committed(h, p, t)
    ensures Committed(h', p, t)
  {
    if |p| > 0 {
      var u: nat :| u <= t && CommittedIn(h, p, u);
      assert CommittedIn(h', p, u);
    }
  }

  // ----- the theorems -----

  // Election Safety: at most one node is ever leader in a term.
  lemma ElectionSafety(run: seq<Cluster>, i: nat, j: nat, a: NodeId, b: NodeId)
    requires IsRun(run) && i < |run| && j < |run| && a in run[i].nodes && b in run[j].nodes
    requires run[i].nodes[a].role == Leader && run[j].nodes[b].role == Leader
    requires run[i].nodes[a].term == run[j].nodes[b].term
    ensures a == b
  {
    hide IsRun, Inv, HistoryOK, VotesOK, AcksOK, AppliedOK, Rooted;
    var hs := RunExplained(run);
    NodeAt(run, hs, i, a);
    NodeAt(run, hs, j, b);
    var t := run[i].nodes[a].term;
    assert Grows(hs[i], hs[Max(i, j)]) && Grows(hs[j], hs[Max(i, j)]);
    assert t in hs[i].elections && t in hs[j].elections;
  }

  // Log Matching: two logs, of any nodes at any times, that carry the same term at an index
  // are equal up to that index.
  lemma LogMatching(run: seq<Cluster>, i: nat, j: nat, a: NodeId, b: NodeId, k: nat)
    requires IsRun(run) && i < |run| && j < |run| && a in run[i].nodes && b in run[j].nodes
    requires k <= |run[i].nodes[a].log| && k <= |run[j].nodes[b].log|
    requires TermAt(run[i].nodes[a].log, k) == TermAt(run[j].nodes[b].log, k)
    ensures run[i].nodes[a].log[..k] == run[j].nodes[b].log[..k]
  {
    var hs := RunExplained(run);
    var m := Max(i, j);
    NodeAt(run, hs, i, a);
    NodeAt(run, hs, j, b);
    NodeAt(run, hs, m, a);
    hide IsRun, Inv, HistoryOK, RoleOK, VotesOK, AcksOK, AppliedOK, Rooted, Grows;
    RootedLater(hs[i], hs[m], run[i].nodes[a].log);
    RootedLater(hs[j], hs[m], run[j].nodes[b].log);
    SameTermSamePrefix(run[0].nodes.Keys, hs[m], run[i].nodes[a].log, run[j].nodes[b].log, k);
  }

  // State Machine Safety, for commit indices: any two committed prefixes, of any nodes at any
  // times, are equal up to the shorter one.
  lemma CommittedNeverDiverge(run: seq<Cluster>, i: nat, j: nat, a: NodeId, b: NodeId)
    requires IsRun(run) && i < |run| && j < |run| && a in run[i].nodes && b in run[j].nodes
    ensures var x, y := run[i].nodes[a], run[j].nodes[b];
            && x.commitIndex <= |x.log| && y.commitIndex <= |y.log|
            && (x.log[..x.commitIndex] <= y.log[..y.commitIndex] || y.log[..y.commitIndex] <= x.log[..x.commitIndex])
  {
    var hs := RunExplained(run);
    var m := Max(i, j);
    NodeAt(run, hs, i, a);
    NodeAt(run, hs, j, b);
    NodeAt(run, hs, m, a);
    hide IsRun, Inv, HistoryOK, RoleOK, VotesOK, AcksOK, Rooted, Grows, Committed;
    var x, y := run[i].nodes[a], run[j].nodes[b];
    CommittedLater(hs[i], hs[m], x.log[..x.commitIndex], x.term);
    CommittedLater(hs[j], hs[m], y.log[..y.commitIndex], y.term);
    CommittedAgree(run[0].nodes.Keys, hs[m], x.log[..x.commitIndex], x.term, y.log[..y.commitIndex], y.term);
  }

  // Leader Completeness: what a node of term T has committed is in the log of every leader of
  // every later term, at whatever times the two are looked at.
  lemma CommittedInLaterLeaders(run: seq<Cluster>, i: nat, j: nat, a: NodeId, b: NodeId)
    requires IsRun(run) && i < |run| && j < |run| && a in run[i].nodes && b in run[j].nodes
    requires run[j].nodes[b].role == Leader && run[i].nodes[a].term < run[j].nodes[b].term
    ensures run[i].nodes[a].commitIndex <= |run[i].nodes[a].log|
    ensures run[i].nodes[a].log[..run[i].nodes[a].commitIndex] <= run[j].nodes[b].log
  {
    var hs := RunExplained(run);
    var m := Max(i, j);
    NodeAt(run, hs, i, a);
    NodeAt(run, hs, j, b);
    NodeAt(run, hs, m, a);
    assert Grows(hs[j], hs[m]);
    hide IsRun, Inv, HistoryOK, VotesOK, AcksOK, Rooted, Committed;
    var x, y := run[i].nodes[a], run[j].nodes[b];
    var p := x.log[..x.commitIndex];
    CommittedLater(hs[i], hs[m], p, x.term);
    AckWithinTerm(run[0].nodes.Keys, hs[j], b, y.term);
    AckWithinTerm(run[0].nodes.Keys, hs[m], b, y.term);
    CommittedInLeader(run[0].nodes.Keys, hs[m], p, x.term, y.term);
    assert y.log <= hs[m].logs[y.term];
  }

  // State Machine Safety, for state machines: no two nodes ever apply different commands at the
  // same index; whoever is behind holds a prefix of what the other has applied.
  lemma StateMachinesAgree(run: seq<Cluster>, i: nat, j: nat, a: NodeId, b: NodeId)
    requires IsRun(run) && i < |run| && j < |run| && a in run[i].nodes && b in run[j].nodes
    ensures var x, y := run[i].nodes[a].applied, run[j].nodes[b].applied; x <= y || y <= x
  {
    var hs := RunExplained(run);
    var m := Max(i, j);
    NodeAt(run, hs, i, a);
    NodeAt(run, hs, j, b);
    NodeAt(run, hs, m, a);
    hide IsRun, Inv, HistoryOK, RoleOK, VotesOK, AcksOK, Rooted, Grows, Committed;
    var x, y := run[i].nodes[a], run[j].nodes[b];
    var p, q := x.log[..x.lastApplied], y.log[..y.lastApplied];
    CommittedLater(hs[i], hs[m], p, x.term);
    CommittedLater(hs[j], hs[m], q, y.term);
    CommittedAgree(run[0].nodes.Keys, hs[m], p, x.term, q, y.term);
    AppliedPrefix(x, y);
  }

  lemma AppliedPrefix(x: Node, y: Node)
    requires x.lastApplied <= |x.log| && |x.applied| == x.lastApplied
    requires y.lastApplied <= |y.log| && |y.applied| == y.lastApplied
    requires forall i :: 0 <= i < x.lastApplied ==> x.applied[i] == Application(i + 1, x.log[i].command)
    requires forall i :: 0 <= i < y.lastApplied ==> y.applied[i] == Application(i + 1, y.log[i].command)
    requires var p, q := x.log[..x.lastApplied], y.log[..y.lastApplied]; p <= q || q <= p
    ensures x.applied <= y.applied || y.applied <= x.applied
  {
    var p, q := x.log[..x.lastApplied], y.log[..y.lastApplied];
    var k := Min(|p|, |q|);
    forall i | 0 <= i < k ensures x.applied[i] == y.applied[i] {
      assert p[i] == q[i];
    }
  }

  // Exactly-once apply: the indices a node has applied are 1..n in order, each once, with the
  // commands its log holds there, and `lastApplied` says how many.
  lemma AppliedExactlyOnce(run: seq<Cluster>, k: nat, a: NodeId)
    requires IsRun(run) && k < |run| && a in run[k].nodes
    ensures var n := run[k].nodes[a];
            && n.lastApplied == |n.applied| == AppliedIndex(n.applied) <= |n.log|
            && n.commitIndex <= |n.log|
            && forall i :: 0 <= i < |n.applied| ==> n.applied[i] == Application(i + 1, n.log[i].command)
  {
    var hs := RunExplained(run);
    NodeAt(run, hs, k, a);
  }

  // ----- what a step never takes back -----

  // What `m`, later than `n`, has not taken back (a restart forgets the commit index only).
  predicate Keeps(n: Node, m: Node) {
    m.id == n.id && n.term <= m.term && n.applied <= m.applied && n.commitIndex <= m.commitIndex
  }

  lemma AdvanceKeeps(n: Node)
    requires n.commitIndex <= |n.log|
    ensures Keeps(n, AdvanceCommit(n)) && AdvanceCommit(n).log == n.log
  {
    hide CommitTarget, Committable;
  }

  lemma LeaderKeeps(n: Node)
    requires n.commitIndex <= |n.log|
    ensures Keeps(n, BecomeLeader(n)) && n.log <= BecomeLeader(n).log
  {
    hide AdvanceCommit;
    AdvanceKeeps(BroadcastAppend(AsLeader(n)));
  }

  lemma AppendKeeps(n: Node, src: NodeId, ae: Body)
    requires ae.AppendEntries? && ae.leaderCommit <= ae.prevLogIndex + |ae.entries|
    ensures var m := OnAppendEntries(n, src, ae);
            && Keeps(n, m)
            && if ae.term >= n.term && Consistent(Deferring(n, ae), ae)
               then m.term == ae.term && m.log == Accepted(Deferring(n, ae), ae).log
               else m.log == n.log
  {
    hide Splice;
  }

  lemma MessageKeeps(n: Node, src: NodeId, body: Body)
    requires n.commitIndex <= |n.log| && !body.AppendEntries?
    ensures Keeps(n, OnMessage(n, src, body)) && n.log <= OnMessage(n, src, body).log
  {
    hide AdvanceCommit, BecomeLeader;
    if body.RequestVoteReply? {
      LeaderKeeps(n.(votes := n.votes + {src}));
    } else if body.AppendEntriesReply? {
      AdvanceKeeps(Matched(n, src, body.matchIndex));
    }
  }

  lemma OtherActionKeeps(n: Node, a: Action)
    requires n.commitIndex <= |n.log| && !a.Deliver? && !a.Reboot?
    ensures Keeps(n, Acted(n, a)) && n.log <= Acted(n, a).log
  {
    hide AdvanceCommit, BecomeLeader;
    match a
    case ElectionTimeout(_) => LeaderKeeps(AsCandidate(n));
    case HeartbeatTimeout(_) =>
    case ClientWrite(_, command) =>
      AdvanceKeeps(BroadcastAppend(Persist(n.(log := n.log + [LogEntry(n.term, command)]))));
  }

  // Terms, applied commands and (but for a restart) commit indices only grow, and an entry
  // that any node of at most this term has committed is never cut from the log.
  lemma ActKeepsCommitted(s: Cluster, h: History, a: Action, p: seq<LogEntry>)
    requires Inv(s, h) && AllSaved(s) && Enabled(s, a)
    requires p <= s.nodes[Actor(a)].log && Committed(h, p, s.nodes[Actor(a)].term)
    ensures var n, m := s.nodes[Actor(a)], Acted(s.nodes[Actor(a)].(outbox := []), a);
            && m.id == n.id && n.term <= m.term && n.applied <= m.applied && p <= m.log
            && (!a.Reboot? ==> n.commitIndex <= m.commitIndex)
  {
    hide HistoryOK, NodeOK, Splice, Committed, BecomeCandidate, Propose;
    hide OnRequestVote, OnRequestVoteReply, OnAppendEntries, OnAppendEntriesReply;
    var n := s.nodes[Actor(a)].(outbox := []);
    assert n.id == Actor(a);
    if a.Deliver? {
      assert MessageOK(s.nodes, h, a.env);
      var ae := a.env.body;
      if ae.AppendEntries? {
        AppendKeeps(n, a.env.src, ae);
        if ae.term >= n.term && Consistent(Deferring(n, ae), ae) {
          DeliverKeepsCommitted(s, h, n, a.env.src, ae, p);
        }
      } else {
        MessageKeeps(n, a.env.src, ae);
      }
    } else if !a.Reboot? {
      OtherActionKeeps(n, a);
    }
  }

  lemma DeliverKeepsCommitted(s: Cluster, h: History, n: Node, src: NodeId, ae: Body, p: seq<LogEntry>)
    requires Inv(s, h) && n.id in s.nodes && n == s.nodes[n.id].(outbox := [])
    requires ae.AppendEntries? && AppendOK(h, src, ae) && ae.term >= n.term && Consistent(Deferring(n, ae), ae)
    requires p <= n.log && Committed(h, p, n.term)
    ensures p <= Accepted(Deferring(n, ae), ae).log
  {
    var m := Deferring(n, ae);
    hide HistoryOK, NodeOK, MessageOK, Rooted, Accepted, Taking;
    assert NodeOK(s.nodes.Keys, h, s.nodes[n.id]);
    NodeRooted(s.nodes.Keys, h, s.nodes[n.id]);
    AcceptTakes(s.nodes.Keys, h, m, src, ae);
    AcceptKeepsCommitted(s.nodes.Keys, h, m, ae, p);
  }

  // Whatever a node has committed or applied stays in its log, and whatever it has applied stays
  // applied, for the rest of the run, restarts included.
  lemma {:induction false} CommittedForever(run: seq<Cluster>, i: nat, j: nat, a: NodeId)
    requires IsRun(run) && i <= j < |run| && a in run[i].nodes
    ensures a in run[j].nodes
    ensures var n, m := run[i].nodes[a], run[j].nodes[a];
            && n.commitIndex <= |n.log| && n.lastApplied <= |n.log|
            && n.log[..n.commitIndex] <= m.log && n.log[..n.lastApplied] <= m.log && n.applied <= m.applied
  {
    var hs := RunExplained(run);
    NodeAt(run, hs, i, a);
    hide IsRun, Inv, HistoryOK, RoleOK, VotesOK, AcksOK, Rooted, Committed;
    var n := run[i].nodes[a];
    KeptUntil(run, hs, i, j, a, n.log[..n.commitIndex]);
    KeptUntil(run, hs, i, j, a, n.log[..n.lastApplied]);
  }

  lemma {:induction false} KeptUntil(run: seq<Cluster>, hs: seq<History>, i: nat, j: nat, a: NodeId, p: seq<LogEntry>)
    requires IsRun(run) && Explains(run, hs) && i <= j < |run| && a in run[i].nodes
    requires p <= run[i].nodes[a].log && Committed(hs[i], p, run[i].nodes[a].term)
    ensures a in run[j].nodes
    ensures p <= run[j].nodes[a].log && Committed(hs[j], p, run[j].nodes[a].term)
    ensures run[i].nodes[a].applied <= run[j].nodes[a].applied
    decreases j
  {
    hide Inv, Init, Committed, Enabled, Acted, Grows;
    if i < j {
      KeptUntil(run, hs, i, j - 1, a, p);
      assert Step(run[j - 1], run[j]);
      StepKeeps(run[j - 1], run[j], hs[j - 1], hs[j], a, p);
    }
  }

  lemma StepKeeps(s: Cluster, s': Cluster, h: History, h': History, a: NodeId, p: seq<LogEntry>)
    requires Step(s, s') && Inv(s, h) && AllSaved(s) && Grows(h, h') && a in s.nodes && s'.nodes.Keys == s.nodes.Keys
    requires p <= s.nodes[a].log && Committed(h, p, s.nodes[a].term)
    ensures p <= s'.nodes[a].log && Committed(h', p, s'.nodes[a].term)
    ensures s.nodes[a].applied <= s'.nodes[a].applied
  {
    hide Inv, Acted, Grows;
    var x :| Enabled(s, x) && s' == Act(s, x);
    IdsAgree(s, h);
    CommittedLater(h, h', p, s.nodes[a].term);
    if Actor(x) == a {
      ActKeepsCommitted(s, h, x, p);
    } else {
      EmptyCommitted(h, s.nodes[Actor(x)].term);
      ActKeepsCommitted(s, h, x, []);
    }
  }

  lemma EmptyCommitted(h: History, t: nat)
    ensures Committed(h, [], t)
  {
  }

  // Between restarts the commit index never moves back.
  lemma CommitNeverMovesBack(run: seq<Cluster>, k: nat, x: Action)
    requires IsRun(run) && k < |run| && Enabled(run[k], x) && !x.Reboot?
    ensures Actor(x) in Act(run[k], x).nodes
    ensures run[k].nodes[Actor(x)].commitIndex <= Act(run[k], x).nodes[Actor(x)].commitIndex
  {
    var hs := RunExplained(run);
    hide Inv, Acted, IsRun, Grows, Enabled;
    assert Inv(run[k], hs[k]) && AllSaved(run[k]);
    EmptyCommitted(hs[k], run[k].nodes[Actor(x)].term);
    IdsAgree(run[k], hs[k]);
    ActKeepsCommitted(run[k], hs[k], x, []);
  }

  // Every AppendEntries ever sent ends where its leader's log ended: its commit index lies within
  // the entries it completes, which is what makes adopting `min(leader_commit, new_last)` safe.
  lemma SentCommitsAreCovered(run: seq<Cluster>, k: nat, e: Envelope)
    requires IsRun(run) && k < |run| && e in run[k].net && e.body.AppendEntries?
    ensures e.body.leaderCommit <= e.body.prevLogIndex + |e.body.entries|
  {
    hide IsRun, Inv, Committed;
    var hs := RunExplained(run);
    AppendAt(run, hs, k, e);
  }

  // Log Matching between a log and an AppendEntries in flight: agreement on the term at an index
  // the message covers means the message's entries up to there are the log's.
  lemma LogMatchesMessage(run: seq<Cluster>, i: nat, j: nat, a: NodeId, e: Envelope, k: nat)
    requires IsRun(run) && i < |run| && j < |run| && a in run[i].nodes
    requires e in run[j].net && e.body.AppendEntries? && k <= |e.body.entries|
    requires var l := run[i].nodes[a].log;
             && e.body.prevLogIndex + k <= |l|
             && TermAt(l, e.body.prevLogIndex + k) == if k == 0 then e.body.prevLogTerm else e.body.entries[k - 1].term
    ensures run[i].nodes[a].log[e.body.prevLogIndex..e.body.prevLogIndex + k] == e.body.entries[..k]
  {
    hide IsRun, Inv, HistoryOK, NodeOK, Rooted, AppendOK, Grows;
    var hs := RunExplained(run);
    var m, l := Max(i, j), run[i].nodes[a].log;
    NodeAt(run, hs, i, a);
    NodeAt(run, hs, m, a);
    NodeRooted(run[0].nodes.Keys, hs[i], run[i].nodes[a]);
    AppendAt(run, hs, j, e);
    RootedLater(hs[i], hs[m], l);
    MatchMessage(run[0].nodes.Keys, hs[m], l, hs[j], e.src, e.body, k);
  }

  lemma MatchMessage(ids: set<NodeId>, h: History, l: seq<LogEntry>, g: History, src: NodeId, ae: Body, k: nat)
    requires HistoryOK(ids, h) && Rooted(h.logs, l) && Grows(g, h)
    requires ae.AppendEntries? && AppendOK(g, src, ae) && k <= |ae.entries| && ae.prevLogIndex + k <= |l|
    requires TermAt(l, ae.prevLogIndex + k) == if k == 0 then ae.prevLogTerm else ae.entries[k - 1].term
    ensures l[ae.prevLogIndex..ae.prevLogIndex + k] == ae.entries[..k]
  {
    hide HistoryOK, Rooted, Committed;
    MessageSlice(g.logs[ae.term], h.logs[ae.term], ae, k);
    MatchSlice(ids, h, l, ae.term, ae.prevLogIndex, k);
  }

  lemma MatchSlice(ids: set<NodeId>, h: History, l: seq<LogEntry>, t: nat, prev: nat, k: nat)
    requires HistoryOK(ids, h) && Rooted(h.logs, l) && t in h.logs
    requires prev + k <= |l| && prev + k <= |h.logs[t]| && TermAt(l, prev + k) == TermAt(h.logs[t], prev + k)
    ensures l[prev..prev + k] == h.logs[t][prev..prev + k]
  {
    hide HistoryOK, Rooted;
    var q := h.logs[t];
    LeaderLogRooted(ids, h, t, |q|);
    assert q[..|q|] == q;
    SameTermSamePrefix(ids, h, l, q, prev + k);
    assert l[prev..prev + k] == l[..prev + k][prev..];
    assert q[prev..prev + k] == q[..prev + k][prev..];
  }

  lemma MessageSlice(l: seq<LogEntry>, q: seq<LogEntry>, ae: Body, k: nat)
    requires ae.AppendEntries? && l <= q && k <= |ae.entries|
    requires ae.prevLogIndex + |ae.entries| <= |l|
    requires ae.entries == l[ae.prevLogIndex..ae.prevLogIndex + |ae.entries|]
    requires ae.prevLogTerm == TermAt(l, ae.prevLogIndex)
    ensures ae.entries[..k] == q[ae.prevLogIndex..ae.prevLogIndex + k]
    ensures TermAt(q, ae.prevLogIndex + k) == if k == 0 then ae.prevLogTerm else ae.entries[k - 1].term
  {
  }

  // Between actions, the saved term and vote are the ones in memory: a restart forgets no vote.
  lemma VotesSurviveRestart(run: seq<Cluster>, k: nat, a: NodeId)
    requires IsRun(run) && k < |run| && a in run[k].nodes
    ensures var n := run[k].nodes[a]; Restart(n).term == n.term && Restart(n).votedFor == n.votedFor
  {
    var hs := RunExplained(run);
    hide Inv;
    assert AllSaved(run[k]);
  }
}
