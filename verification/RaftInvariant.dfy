/** The inductive invariant behind Raft's safety, and Leader Completeness derived from it.

    A `History` is a record the proof keeps beside the cluster: for every term that has had a
    leader, that leader's log as it has grown; who won, with whose votes and with how long a log;
    every vote; the furthest index each node has acknowledged to each term's leader; and the
    furthest index each term's leader has committed. No theorem about runs mentions it. */
module RaftInvariant {
  import opened Prelude
  import opened RaftMessages
  import opened RaftLog
  import opened RaftSpec
  import opened RaftCluster

  datatype Election = Election(leader: NodeId, electors: set<NodeId>, base: nat)

  datatype Commit = Commit(index: nat, quorum: set<NodeId>)

  datatype History = History(
    logs: map<nat, seq<LogEntry>>,
    elections: map<nat, Election>,
    votes: map<(NodeId, nat), NodeId>,
    acks: map<(NodeId, nat), nat>,
    commits: map<nat, Commit>)

  // ----- logs -----

  // The first `i` entries of `l` are those of the leader whose term entry `i` carries.
  predicate Anchored(logs: map<nat, seq<LogEntry>>, l: seq<LogEntry>, i: nat)
    requires 0 < i <= |l|
  {
    && l[i - 1].term in logs
    && i <= |logs[l[i - 1].term]|
    && l[..i] == logs[l[i - 1].term][..i]
  }

  predicate Rooted(logs: map<nat, seq<LogEntry>>, l: seq<LogEntry>) {
    |l| > 0 ==> Anchored(logs, l, |l|)
  }

  predicate Monotone(l: seq<LogEntry>) {
    forall i, j :: 0 <= i <= j < |l| ==> l[i].term <= l[j].term
  }

  // `l` is at least as up to date as a log whose last entry is at `index` in `term`.
  predicate UpToDate(l: seq<LogEntry>, term: nat, index: nat) {
    LastTerm(l) > term || (LastTerm(l) == term && |l| >= index)
  }

  predicate Quorum(ids: set<NodeId>, q: set<NodeId>) {
    q <= ids && |q| >= |ids| / 2 + 1
  }

  // `l` is at least as up to date as everything `v` acknowledged before `term`.
  ghost predicate Covers(h: History, v: NodeId, term: nat, l: seq<LogEntry>) {
    forall u :: u < term && (v, u) in h.acks ==> UpToDate(l, u, h.acks[(v, u)])
  }

  // ----- the history on its own -----

  predicate TermLog(h: History, t: nat)
    requires t in h.logs && t in h.elections
  {
    var l, base := h.logs[t], h.elections[t].base;
    && base < |l|
    && Monotone(l)
    && (forall i :: base <= i < |l| ==> l[i].term == t)
    && (forall i :: 0 <= i < base ==> l[i].term < t)
    && (forall i :: 0 < i <= |l| ==> Anchored(h.logs, l, i))
  }

  ghost predicate Won(ids: set<NodeId>, h: History, t: nat)
    requires t in h.logs && t in h.elections
  {
    var e := h.elections[t];
    && e.base < |h.logs[t]|
    && e.leader in ids
    && Quorum(ids, e.electors)
    && (forall v :: v in e.electors ==> (v, t) in h.votes && h.votes[(v, t)] == e.leader)
    && (forall v :: v in e.electors ==> Covers(h, v, t, h.logs[t][..e.base]))
  }

  predicate AckOK(h: History, k: (NodeId, nat))
    requires k in h.acks
  {
    && k.1 in h.logs
    && k.1 in h.elections
    && h.elections[k.1].base < h.acks[k] <= |h.logs[k.1]|
  }

  predicate CommitOK(ids: set<NodeId>, h: History, t: nat)
    requires t in h.commits
  {
    && t in h.logs
    && t in h.elections
    && h.elections[t].base < h.commits[t].index <= |h.logs[t]|
    && Quorum(ids, h.commits[t].quorum)
    && forall v :: v in h.commits[t].quorum ==> (v, t) in h.acks && h.acks[(v, t)] >= h.commits[t].index
  }

  ghost predicate HistoryOK(ids: set<NodeId>, h: History) {
    && h.logs.Keys == h.elections.Keys
    && (forall t :: t in h.logs ==> TermLog(h, t))
    && (forall t :: t in h.elections ==> Won(ids, h, t))
    && (forall k :: k in h.acks ==> AckOK(h, k))
    && (forall t :: t in h.commits ==> CommitOK(ids, h, t))
  }

  // `p` lies within what some leader of a term up to `bound` has committed.
  ghost predicate Committed(h: History, p: seq<LogEntry>, bound: nat) {
    |p| > 0 ==> exists t: nat :: t <= bound && CommittedIn(h, p, t)
  }

  predicate CommittedIn(h: History, p: seq<LogEntry>, t: nat) {
    t in h.commits && t in h.logs && |p| <= h.commits[t].index && p <= h.logs[t]
  }

  // ----- the nodes -----

  ghost predicate RoleOK(ids: set<NodeId>, h: History, n: Node) {
    && (n.role == Leader ==>
          && n.term in h.elections && h.elections[n.term].leader == n.id
          && n.term in h.logs && h.logs[n.term] == n.log
          && n.nextIndex.Keys == n.matchIndex.Keys == ids - {n.id}
          && (n.id, n.term) in h.acks && h.acks[(n.id, n.term)] == |n.log|
          && (n.term in h.commits ==> h.commits[n.term].index <= n.commitIndex)
          && (forall p :: p in n.nextIndex ==> n.nextIndex[p] <= |n.log| + 1)
          && (forall p :: p in n.matchIndex && n.matchIndex[p] > 0 ==>
                (p, n.term) in h.acks && n.matchIndex[p] <= h.acks[(p, n.term)]))
    && (n.role == Candidate ==>
          && LastTerm(n.log) < n.term
          && n.votes <= ids
          && (forall v :: v in n.votes ==> (v, n.term) in h.votes && h.votes[(v, n.term)] == n.id)
          && (forall v :: v in n.votes ==> Covers(h, v, n.term, n.log)))
    && (forall t :: t in h.elections && h.elections[t].leader == n.id ==>
          t <= n.term && (t == n.term ==> n.role != Candidate))
  }

  ghost predicate VotesOK(h: History, n: Node) {
    && (forall t :: (n.id, t) in h.votes ==>
          t <= n.term && (t == n.term ==> n.votedFor == Some(h.votes[(n.id, t)])))
    && (n.votedFor.Some? ==> (n.id, n.term) in h.votes)
  }

  ghost predicate AcksOK(h: History, n: Node) {
    forall t :: (n.id, t) in h.acks ==> t <= n.term && UpToDate(n.log, t, h.acks[(n.id, t)])
  }

  ghost predicate AppliedOK(h: History, n: Node) {
    && n.commitIndex <= |n.log|
    && n.lastApplied <= |n.log|
    && Committed(h, n.log[..n.commitIndex], n.term)
    && Committed(h, n.log[..n.lastApplied], n.term)
    && |n.applied| == n.lastApplied
    && (forall i :: 0 <= i < n.lastApplied ==> n.applied[i] == Application(i + 1, n.log[i].command))
  }

  ghost predicate NodeOK(ids: set<NodeId>, h: History, n: Node) {
    && PeersAre(ids, n)
    && Rooted(h.logs, n.log)
    && LastTerm(n.log) <= n.term
    && RoleOK(ids, h, n)
    && VotesOK(h, n)
    && AcksOK(h, n)
    && AppliedOK(h, n)
  }

  // ----- the messages -----

  ghost predicate AppendOK(h: History, src: NodeId, ae: Body)
    requires ae.AppendEntries?
  {
    && ae.term in h.logs && ae.term in h.elections
    && h.elections[ae.term].leader == src == ae.leaderId
    && var l, end := h.logs[ae.term], ae.prevLogIndex + |ae.entries|;
    && h.elections[ae.term].base < end <= |l|
    && ae.entries == l[ae.prevLogIndex..end]
    && ae.prevLogTerm == TermAt(l, ae.prevLogIndex)
    && ae.leaderCommit <= end
    && Committed(h, l[..ae.leaderCommit], ae.term)
  }

  ghost predicate MessageOK(nodes: map<NodeId, Node>, h: History, e: Envelope) {
    && e.src in nodes && e.dst in nodes && e.src != e.dst
    && match e.body
       case RequestVote(t, c, lastIndex, lastTerm) =>
         var n := nodes[e.src];
         && c == e.src
         && t <= n.term
         && (t == n.term && n.role == Candidate ==> lastIndex == |n.log| && lastTerm == LastTerm(n.log))
       case RequestVoteReply(t, granted) =>
         granted ==>
           var n := nodes[e.dst];
           && t <= n.term
           && (e.src, t) in h.votes && h.votes[(e.src, t)] == e.dst
           && (t == n.term && n.role == Candidate ==> Covers(h, e.src, t, n.log))
       case AppendEntries(_, _, _, _, _, _) => AppendOK(h, e.src, e.body)
       case AppendEntriesReply(t, success, index) =>
         success ==>
           && t in h.elections && h.elections[t].leader == e.dst
           && (e.src, t) in h.acks && index <= h.acks[(e.src, t)]
  }

  ghost predicate Inv(s: Cluster, h: History) {
    && (forall i :: i in s.nodes ==> s.nodes[i].id == i)
    && HistoryOK(s.nodes.Keys, h)
    && (forall i :: i in s.nodes ==> NodeOK(s.nodes.Keys, h, s.nodes[i]))
    && (forall e :: e in s.net ==> MessageOK(s.nodes, h, e))
  }

  // ----- consequences of a good history -----

  lemma QuorumsMeet(ids: set<NodeId>, a: set<NodeId>, b: set<NodeId>) returns (v: NodeId)
    requires Quorum(ids, a) && Quorum(ids, b)
    ensures v in a && v in b
  {
    if a * b == {} {
      assert |a + b| == |a| + |b|;
      SubsetSize(a + b, ids);
      assert false;
    }
    v :| v in a * b;
  }

  lemma {:induction false} SubsetSize(a: set<NodeId>, b: set<NodeId>)
    requires a <= b
    ensures |a| <= |b|
  {
    assert b == a + (b - a);
    assert |b| == |a| + |b - a|;
  }

  // Every prefix of a rooted log is anchored, and its terms never decrease.
  lemma RootedPrefixes(ids: set<NodeId>, h: History, l: seq<LogEntry>)
    requires HistoryOK(ids, h) && Rooted(h.logs, l)
    ensures Monotone(l)
    ensures forall i :: 0 < i <= |l| ==> Anchored(h.logs, l, i)
  {
    if |l| > 0 {
      var m := h.logs[LastTerm(l)];
      assert TermLog(h, LastTerm(l));
      assert l == m[..|l|];
      forall i | 0 < i <= |l| ensures Anchored(h.logs, l, i) {
        assert Anchored(h.logs, m, i);
        assert l[..i] == m[..i];
        assert l[i - 1] == m[i - 1];
      }
      forall i, j | 0 <= i <= j < |l| ensures l[i].term <= l[j].term {
        assert l[i] == m[i] && l[j] == m[j];
      }
    }
  }

  // Log Matching for any two rooted logs.
  lemma SameTermSamePrefix(ids: set<NodeId>, h: History, a: seq<LogEntry>, b: seq<LogEntry>, i: nat)
    requires HistoryOK(ids, h) && Rooted(h.logs, a) && Rooted(h.logs, b)
    requires i <= |a| && i <= |b| && TermAt(a, i) == TermAt(b, i)
    ensures a[..i] == b[..i]
  {
    if i > 0 {
      RootedPrefixes(ids, h, a);
      RootedPrefixes(ids, h, b);
      assert Anchored(h.logs, a, i) && Anchored(h.logs, b, i);
    }
  }

  lemma TermLogRooted(h: History, t: nat, k: nat)
    requires t in h.logs && t in h.elections && TermLog(h, t) && k <= |h.logs[t]|
    ensures Rooted(h.logs, h.logs[t][..k])
  {
    if k > 0 {
      assert Anchored(h.logs, h.logs[t], k);
      assert h.logs[t][..k][..k] == h.logs[t][..k];
    }
  }

  // Some elector of `u` had acknowledged the commit, so the winning log is as up to date as it.
  lemma WinnerSawCommit(ids: set<NodeId>, h: History, t: nat, u: nat)
    requires HistoryOK(ids, h)
    requires t in h.commits && u in h.elections && t < u
    ensures UpToDate(h.logs[u][..h.elections[u].base], t, h.commits[t].index)
  {
    assert CommitOK(ids, h, t) && Won(ids, h, u);
    var v := QuorumsMeet(ids, h.commits[t].quorum, h.elections[u].electors);
    assert Covers(h, v, u, h.logs[u][..h.elections[u].base]);
    assert (v, t) in h.acks;
  }

  // A log that follows the leader of `w` up to its own last entry, of term `w`, holds whatever
  // prefix of that leader's log ends in an earlier term, or in term `w` within its length.
  lemma PrefixReached(h: History, w: nat, l: seq<LogEntry>, c: nat)
    requires w in h.logs && w in h.elections && TermLog(h, w)
    requires 0 < |l| && LastTerm(l) == w && Anchored(h.logs, l, |l|)
    requires 0 < c <= |h.logs[w]|
    requires h.logs[w][c - 1].term < w || c <= |l|
    ensures c <= |l| && l[..c] == h.logs[w][..c]
  {
    assert l == h.logs[w][..|l|];
    assert l[|l| - 1] == h.logs[w][|l| - 1];
  }

  // Leader Completeness: what the leader of term `t` committed was already in the log with
  // which the leader of any later term `u` won its election.
  lemma {:induction false} LeaderCompleteness(ids: set<NodeId>, h: History, t: nat, u: nat)
    requires HistoryOK(ids, h)
    requires t in h.commits && u in h.elections && t < u
    ensures h.commits[t].index <= h.elections[u].base
    ensures h.commits[t].index <= |h.logs[t]| && h.logs[t][..h.commits[t].index] <= h.logs[u]
    decreases u
  {
    var c, base := h.commits[t].index, h.elections[u].base;
    assert CommitOK(ids, h, t) && TermLog(h, t) && TermLog(h, u);
    assert h.logs[t][c - 1].term == t;
    var won := h.logs[u][..base];
    WinnerSawCommit(ids, h, t, u);
    if base == 0 { assert false; }
    var w := LastTerm(won);
    TermLogRooted(h, u, base);
    assert w == h.logs[u][base - 1].term < u;
    assert Anchored(h.logs, won, |won|) && TermLog(h, w);
    if w != t {
      LeaderCompleteness(ids, h, t, w);
      assert h.logs[w][..c] == h.logs[t][..c];
      assert h.logs[w][c - 1] == h.logs[w][..c][c - 1] == h.logs[t][..c][c - 1] == h.logs[t][c - 1];
    }
    PrefixReached(h, w, won, c);
    assert h.logs[u][..c] == won[..c];
  }

  lemma PrefixThrough<T>(p: seq<T>, a: seq<T>, c: nat, b: seq<T>)
    requires |p| <= c <= |a| && p <= a && a[..c] <= b
    ensures p <= b
  {
    assert p == a[..c][..|p|];
  }

  // Anything committed up to a term's number is in that term's leader's log.
  lemma CommittedInLeader(ids: set<NodeId>, h: History, p: seq<LogEntry>, bound: nat, u: nat)
    requires HistoryOK(ids, h) && Committed(h, p, bound)
    requires bound <= u && u in h.elections
    ensures p <= h.logs[u]
    ensures bound < u ==> |p| <= h.elections[u].base
  {
    hide TermLog, Won, AckOK, CommitOK;
    if |p| > 0 {
      var t: nat :| t <= bound && CommittedIn(h, p, t);
      if t < u {
        LeaderCompleteness(ids, h, t, u);
        PrefixThrough(p, h.logs[t], h.commits[t].index, h.logs[u]);
      }
    }
  }

  // State Machine Safety on the history: committed prefixes never disagree.
  lemma CommittedAgree(ids: set<NodeId>, h: History, p: seq<LogEntry>, a: nat, q: seq<LogEntry>, b: nat)
    requires HistoryOK(ids, h) && Committed(h, p, a) && Committed(h, q, b)
    ensures p <= q || q <= p
  {
    if |p| > 0 && |q| > 0 {
      var t: nat :| t <= a && CommittedIn(h, p, t);
      var u: nat :| u <= b && CommittedIn(h, q, u);
      var w := if t <= u then u else t;
      CommittedInLeader(ids, h, p, t, w);
      CommittedInLeader(ids, h, q, u, w);
    }
  }
}
