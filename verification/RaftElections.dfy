/** When a vote is granted and when an election is won (`imustore/raft/node.py`, the elections).

    The safety theorems say what no run does. These say what a run can do: a request is granted
    exactly when the source's three conditions hold, and from every reachable state a candidate
    that a majority may vote for becomes leader once its requests and their answers arrive. */
module RaftElections {
  import opened Prelude
  import opened RaftMessages
  import opened RaftLog
  import opened RaftSpec
  import opened RaftCluster
  import opened RaftInvariant
  import opened RaftSteps
  import opened RaftTheorems

  // ----- one vote -----

  // Log `a` is not behind log `b`: its last entry is of a later term, or of the same term in a
  // log at least as long. An empty log is behind every other.
  predicate NotBehind(a: seq<LogEntry>, b: seq<LogEntry>) {
    || b == []
    || (a != [] && a[|a| - 1].term > b[|b| - 1].term)
    || (a != [] && a[|a| - 1].term == b[|b| - 1].term && |a| >= |b|)
  }

  function RequestOf(term: nat, c: NodeId, l: seq<LogEntry>): Body {
    RequestVote(term, c, |l|, if l == [] then 0 else l[|l| - 1].term)
  }

  // Whether `n` may vote for `c` in `term`.
  predicate Free(n: Node, term: nat, c: NodeId) {
    n.term < term || (n.term == term && (n.votedFor == None || n.votedFor == Some(c)))
  }

  // A request from a candidate with log `l` gets one answer, in the later of the two terms. It is
  // a grant exactly when the vote is free and the candidate's log is not behind the voter's, and
  // then the vote is saved before the answer leaves.
  lemma VoteGrantedIff(n: Node, src: NodeId, term: nat, c: NodeId, l: seq<LogEntry>)
    ensures var m, granted := OnRequestVote(n, src, RequestOf(term, c, l)), Free(n, term, c) && NotBehind(l, n.log);
            && m.outbox == n.outbox + [Envelope(n.id, src, RequestVoteReply(Max(n.term, term), granted))]
            && m.term == Max(n.term, term)
            && (granted ==> m.votedFor == Some(c) && m.term == m.savedTerm == term && m.savedVote == Some(c))
            && (!granted ==> m.votedFor == if term > n.term then None else n.votedFor)
            && (m.role == if term > n.term then Follower else n.role)
            && m.log == n.log && m.commitIndex == n.commitIndex && m.lastApplied == n.lastApplied
            && m.applied == n.applied && m.id == n.id && m.peers == n.peers
  {
    hide LogUpToDate, NotBehind, LastTerm;
    UpToDateIsNotBehind(n, l);
    var m := if term > n.term then BecomeFollower(n, term) else n;
    assert m.log == n.log && LogUpToDate(m, |l|, RequestOf(term, c, l).lastLogTerm) == NotBehind(l, n.log) by {
      UpToDateIsNotBehind(m, l);
    }
  }

  lemma UpToDateIsNotBehind(n: Node, l: seq<LogEntry>)
    ensures LogUpToDate(n, |l|, if l == [] then 0 else l[|l| - 1].term) <==> NotBehind(l, n.log)
  {
  }

  // A count of nodes is a majority exactly when it is more than half of the cluster.
  lemma MajorityIsMoreThanHalf(ids: set<NodeId>, n: Node, count: nat)
    requires PeersAre(ids, n) && n.id in ids
    ensures HasMajority(n, count) <==> 2 * count > |ids|
  {
    ClusterSize(ids, n);
  }

  // An election timeout opens the next term with a vote for oneself, saved. Alone, the node leads
  // at once; otherwise it asks every peer, with the index and term of its own last entry.
  lemma TimeoutAsksEveryPeer(n: Node)
    requires n.commitIndex <= |n.log|
    ensures var m := BecomeCandidate(n);
            && m.id == n.id && m.peers == n.peers
            && m.term == n.term + 1 && m.votedFor == Some(n.id) && m.savedTerm == m.term && m.savedVote == m.votedFor
            && if n.peers == [] then m.role == Leader else
                 && m.role == Candidate && m.log == n.log && m.votes == {n.id}
                 && m.commitIndex == n.commitIndex && m.lastApplied == n.lastApplied
                 && n.outbox <= m.outbox && |m.outbox| == |n.outbox| + |n.peers|
                 && forall i :: 0 <= i < |n.peers| ==>
                      m.outbox[|n.outbox| + i] == Envelope(n.id, n.peers[i], RequestOf(n.term + 1, n.id, n.log))
  {
    hide CommitTarget, Committable;
    assert RequestOf(n.term + 1, n.id, n.log) == RequestVote(n.term + 1, n.id, |n.log|, LastTerm(n.log));
  }

  // ----- what every candidate of a reachable state has done -----

  // A candidate has its own vote, lacks a majority and has asked every peer. Every node has
  // applied what it knows to be committed.
  predicate Standing(net: set<Envelope>, n: Node) {
    && n.commitIndex <= n.lastApplied
    && (n.role == Candidate ==>
          && n.id in n.votes && !HasMajority(n, |n.votes|)
          && forall p :: p in n.peers ==> Envelope(n.id, p, RequestOf(n.term, n.id, n.log)) in net)
  }

  lemma AdvanceApplies(n: Node)
    requires n.commitIndex <= |n.log|
    ensures var m := AdvanceCommit(n);
            && (n.commitIndex <= n.lastApplied ==> m.commitIndex <= m.lastApplied)
            && m.role == n.role && m.id == n.id && m.peers == n.peers && m.term == n.term && m.log == n.log
            && m.outbox == n.outbox && m.matchIndex == n.matchIndex && m.nextIndex == n.nextIndex
            && n.commitIndex <= m.commitIndex <= |m.log|
  {
    hide Committable;
  }

  lemma LeaderStands(n: Node)
    requires n.commitIndex <= |n.log| && n.commitIndex <= n.lastApplied
    ensures var m := BecomeLeader(n); m.role == Leader && m.commitIndex <= m.lastApplied
    ensures BecomeLeader(n).id == n.id && BecomeLeader(n).peers == n.peers && BecomeLeader(n).term == n.term
  {
    hide AdvanceCommit;
    AdvanceApplies(BroadcastAppend(AsLeader(n)));
  }

  lemma MessageStands(net: set<Envelope>, n: Node, src: NodeId, body: Body)
    requires n.commitIndex <= |n.log| && Standing(net, n)
    ensures Standing(net, OnMessage(n, src, body))
  {
    hide AdvanceCommit, BecomeLeader, RequestOf;
    match body
    case RequestVote(_, _, _, _) =>
    case RequestVoteReply(_, _) => LeaderStands(n.(votes := n.votes + {src}));
    case AppendEntries(_, _, _, _, _, _) => AppendStands(n, src, body);
    case AppendEntriesReply(_, _, index) => AdvanceApplies(Matched(n, src, index));
  }

  lemma AppendStands(n: Node, src: NodeId, ae: Body)
    requires ae.AppendEntries? && n.commitIndex <= n.lastApplied
    ensures var m := OnAppendEntries(n, src, ae);
            && m.commitIndex <= m.lastApplied
            && if ae.term >= n.term then m.role == Follower else m == n.(outbox := m.outbox)
  {
    hide Splice;
  }

  lemma ActStands(s: Cluster, a: Action)
    requires Enabled(s, a) && forall i :: i in s.nodes ==> Standing(s.net, s.nodes[i])
    ensures forall i :: i in Act(s, a).nodes ==> Standing(Act(s, a).net, Act(s, a).nodes[i])
  {
    var n := s.nodes[Actor(a)].(outbox := []);
    var m, net := Acted(n, a), Act(s, a).net;
    assert Standing(net, m) by {
      assert Standing(s.net, n) by { assert Standing(s.net, s.nodes[Actor(a)]); }
      ActedStands(s.net, n, a);
      MoreStands(s.net + (set e | e in m.outbox), net, m);
    }
    hide Acted, Standing;
    forall i | i in Act(s, a).nodes ensures Standing(net, Act(s, a).nodes[i]) {
      if i != m.id {
        MoreStands(s.net, net, s.nodes[i]);
      }
    }
  }

  lemma MoreStands(net: set<Envelope>, more: set<Envelope>, n: Node)
    requires Standing(net, n) && net <= more
    ensures Standing(more, n)
  {
  }

  lemma ActedStands(net: set<Envelope>, n: Node, a: Action)
    requires n.commitIndex <= |n.log| && n.outbox == [] && Standing(net, n)
    requires a.ClientWrite? || a.HeartbeatTimeout? ==> n.role == Leader
    ensures var m := Acted(n, a); Standing(net + (set e | e in m.outbox), m)
  {
    hide AdvanceCommit, BecomeLeader, OnMessage, BecomeCandidate, HasMajority, RequestOf;
    var m := Acted(n, a);
    var more := net + set e | e in m.outbox;
    match a
    case Deliver(env) =>
      MessageStands(net, n, env.src, env.body);
      MoreStands(net, more, m);
    case ElectionTimeout(_) => TimeoutStands(net, n);
    case HeartbeatTimeout(_) =>
    case ClientWrite(_, command) =>
      AdvanceApplies(BroadcastAppend(Persist(n.(log := n.log + [LogEntry(n.term, command)]))));
    case Reboot(_) =>
  }

  lemma TimeoutStands(net: set<Envelope>, n: Node)
    requires n.commitIndex <= |n.log| && n.outbox == [] && Standing(net, n)
    ensures var m := BecomeCandidate(n); Standing(net + (set e | e in m.outbox), m)
  {
    hide BecomeLeader, RequestOf;
    TimeoutAsksEveryPeer(n);
    LeaderStands(AsCandidate(n));
    var m := BecomeCandidate(n);
    if n.peers != [] {
      forall p | p in m.peers ensures Envelope(m.id, p, RequestOf(m.term, m.id, m.log)) in m.outbox {
        var i :| 0 <= i < |n.peers| && n.peers[i] == p;
        assert m.outbox[|n.outbox| + i] in m.outbox;
      }
    }
  }

  lemma {:induction false} StandingInEveryState(run: seq<Cluster>, k: nat)
    requires IsRun(run) && k < |run|
    ensures forall i :: i in run[k].nodes ==> Standing(run[k].net, run[k].nodes[i])
    decreases k
  {
    hide Enabled, Act, Standing;
    if k == 0 {
      forall i | i in run[0].nodes ensures Standing(run[0].net, run[0].nodes[i]) {
        FreshStands(i, run[0].nodes[i].peers);
      }
    } else {
      StandingInEveryState(run, k - 1);
      assert Step(run[k - 1], run[k]);
      var a :| Enabled(run[k - 1], a) && run[k] == Act(run[k - 1], a);
      ActStands(run[k - 1], a);
    }
  }

  lemma FreshStands(i: NodeId, peers: seq<NodeId>)
    ensures Standing({}, Fresh(i, peers, 0, None, [], []))
  {
  }

  // ----- continuing a run -----

  // The cluster after the given actions, if each is enabled in its turn.
  function After(s: Cluster, acts: seq<Action>): Option<Cluster> {
    if acts == [] then Some(s)
    else
      var t := After(s, acts[..|acts| - 1]);
      if t.Some? && Enabled(t.value, acts[|acts| - 1]) then Some(Act(t.value, acts[|acts| - 1])) else None
  }

  lemma AfterOne(s: Cluster, acts: seq<Action>, a: Action)
    requires After(s, acts).Some? && Enabled(After(s, acts).value, a)
    ensures After(s, acts + [a]) == Some(Act(After(s, acts).value, a))
  {
    assert (acts + [a])[..|acts|] == acts;
  }

  function End(run: seq<Cluster>): Cluster
    requires |run| > 0
  {
    run[|run| - 1]
  }

  // Run `r` continues `run` by the actions `acts`.
  ghost predicate Continues(run: seq<Cluster>, acts: seq<Action>, r: seq<Cluster>) {
    && |run| > 0 && run <= r && |r| == |run| + |acts| && IsRun(r)
    && After(End(run), acts) == Some(End(r))
  }

  lemma Onward(run: seq<Cluster>, acts: seq<Action>, r: seq<Cluster>, a: Action) returns (q: seq<Cluster>)
    requires Continues(run, acts, r) && |r| > 0 && Enabled(End(r), a)
    ensures Continues(run, acts + [a], q) && |q| > 0 && End(q) == Act(End(r), a)
  {
    hide Enabled, Act, Init;
    q := r + [Act(End(r), a)];
    AfterOne(End(run), acts, a);
    assert Step(End(r), q[|r|]);
    assert forall k :: 0 <= k < |r| ==> q[k] == r[k];
  }

  // ----- one election -----

  // Only `a` and `b` differ between the two states, and nothing sent is lost.
  predicate OnlyThese(s: Cluster, t: Cluster, a: NodeId, b: NodeId) {
    && t.nodes.Keys == s.nodes.Keys && s.net <= t.net
    && forall x :: x in s.nodes && x != a && x != b ==> t.nodes[x] == s.nodes[x]
  }

  // The candidate's request delivered to each voter, and each voter's grant delivered back.
  function Ballot(n: Node, vs: seq<NodeId>): seq<Action> {
    if vs == [] then []
    else
      var v := vs[|vs| - 1];
      Ballot(n, vs[..|vs| - 1])
      + [Deliver(Envelope(n.id, v, RequestOf(n.term, n.id, n.log)))]
      + [Deliver(Envelope(v, n.id, RequestVoteReply(n.term, true)))]
  }

  // Each of `vs` is another node, whose vote is free and whose log the candidate's is not behind.
  predicate MayVote(s: Cluster, n: Node, vs: seq<NodeId>) {
    && NoDuplicates(vs)
    && forall v :: v in vs ==>
         v in s.nodes && v != n.id && Free(s.nodes[v], n.term, n.id) && NotBehind(n.log, s.nodes[v].log)
  }

  // How far the election has come: the voters so far are counted, or it is already won.
  predicate Counted(n: Node, vs: seq<NodeId>, m: Node) {
    && m.id == n.id && m.term == n.term && m.peers == n.peers
    && (m.role == Leader || (m.role == Candidate && m.log == n.log && n.votes + Members(vs) <= m.votes))
  }

  lemma GrantArrives(n: Node, vs: seq<NodeId>, m: Node, v: NodeId)
    requires Counted(n, vs, m) && m.commitIndex <= |m.log| && m.commitIndex <= m.lastApplied
    ensures Counted(n, vs + [v], OnRequestVoteReply(m, v, RequestVoteReply(n.term, true)))
  {
    hide BecomeLeader;
    LeaderStands(m.(votes := m.votes + {v}));
    assert Members(vs + [v]) == Members(vs) + {v};
  }

  lemma StateAt(r: seq<Cluster>, x: NodeId)
    requires |r| > 0 && IsRun(r) && x in End(r).nodes
    ensures var s := End(r);
            && s.nodes[x].id == x && PeersAre(s.nodes.Keys, s.nodes[x]) && Standing(s.net, s.nodes[x])
            && s.nodes[x].commitIndex <= s.nodes[x].lastApplied == |s.nodes[x].applied| <= |s.nodes[x].log|
  {
    hide IsRun, PeersAre, Standing;
    NamedAt(r, x);
    AppliedExactlyOnce(r, |r| - 1, x);
    StandingInEveryState(r, |r| - 1);
    StandingApplies(End(r).net, End(r).nodes[x]);
  }

  lemma NamedAt(r: seq<Cluster>, x: NodeId)
    requires |r| > 0 && IsRun(r) && x in End(r).nodes
    ensures End(r).nodes[x].id == x && PeersAre(End(r).nodes.Keys, End(r).nodes[x])
  {
    hide IsRun, Inv, HistoryOK, RoleOK, VotesOK, AcksOK, AppliedOK, Rooted, PeersAre;
    var hs := RunExplained(r);
    NodeAt(r, hs, |r| - 1, x);
  }

  lemma StandingApplies(net: set<Envelope>, n: Node)
    requires Standing(net, n)
    ensures n.commitIndex <= n.lastApplied
  {
  }

  // The request of candidate `c` reaches a voter that is still free.
  lemma RequestArrives(s: Cluster, c: NodeId, v: NodeId, term: nat, l: seq<LogEntry>)
    requires v in s.nodes && s.nodes[v].id == v && s.nodes[v].commitIndex <= |s.nodes[v].log|
    requires Envelope(c, v, RequestOf(term, c, l)) in s.net
    requires Free(s.nodes[v], term, c) && NotBehind(l, s.nodes[v].log)
    ensures var a := Deliver(Envelope(c, v, RequestOf(term, c, l)));
            && Enabled(s, a) && OnlyThese(s, Act(s, a), v, v)
            && Envelope(v, c, RequestVoteReply(term, true)) in Act(s, a).net
            && Act(s, a).nodes[v].term == term
  {
    hide OnRequestVote, NotBehind;
    var n := s.nodes[v].(outbox := []);
    VoteGrantedIff(n, c, term, c, l);
    var m := OnRequestVote(n, c, RequestOf(term, c, l));
    assert m.outbox[0] == Envelope(v, c, RequestVoteReply(term, true));
  }

  // What the deliveries to and from `vs` have done to the cluster `s`.
  ghost predicate Polled(s: Cluster, c: NodeId, vs: seq<NodeId>, t: Cluster)
    requires c in s.nodes
  {
    && t.nodes.Keys == s.nodes.Keys && s.net <= t.net
    && Counted(s.nodes[c], vs, t.nodes[c])
    && (forall v :: v in vs && v in s.nodes ==> t.nodes[v].term == s.nodes[c].term)
    && forall x :: x in s.nodes && x != c && x !in vs ==> t.nodes[x] == s.nodes[x]
  }

  lemma Answer(run: seq<Cluster>, c: NodeId, vs: seq<NodeId>, v: NodeId, r: seq<Cluster>) returns (q: seq<Cluster>)
    requires |run| > 0 && IsRun(run)
    requires var s := End(run);
             && c in s.nodes && s.nodes[c].role == Candidate && MayVote(s, s.nodes[c], [v]) && v !in vs && c !in vs
             && Continues(run, Ballot(s.nodes[c], vs), r) && |r| > 0 && Polled(s, c, vs, End(r))
    ensures var s := End(run);
            Continues(run, Ballot(s.nodes[c], vs + [v]), q) && |q| > 0 && Polled(s, c, vs + [v], End(q))
  {
    hide IsRun, Free, NotBehind, Continues, Enabled, Act, Counted;
    var s, t := End(run), End(r);
    var n := s.nodes[c];
    assert IsRun(r) by { ContinuesMeans(run, Ballot(n, vs), r); }
    StateAt(run, c);
    StateAt(r, v);
    assert v in [v];
    assert v in Members(n.peers);
    RequestArrives(t, c, v, n.term, n.log);
    var ask := Deliver(Envelope(c, v, RequestOf(n.term, c, n.log)));
    q := Onward(run, Ballot(n, vs), r, ask);
    var u := End(q);
    assert IsRun(q) by { ContinuesMeans(run, Ballot(n, vs) + [ask], q); }
    StateAt(q, c);
    VoteArrives(n, vs, u, v);
    PolledMore(s, t, u, Act(u, Deliver(Envelope(v, c, RequestVoteReply(n.term, true)))), c, vs, v);
    q := Onward(run, Ballot(n, vs) + [ask], q, Deliver(Envelope(v, c, RequestVoteReply(n.term, true))));
    assert (vs + [v])[..|vs|] == vs;
  }

  lemma PolledMore(s: Cluster, t: Cluster, u: Cluster, w: Cluster, c: NodeId, vs: seq<NodeId>, v: NodeId)
    requires c in s.nodes && v in s.nodes && v != c && c !in vs && Polled(s, c, vs, t)
    requires OnlyThese(t, u, v, v) && OnlyThese(u, w, c, c)
    requires u.nodes[v].term == s.nodes[c].term && Counted(s.nodes[c], vs + [v], w.nodes[c])
    ensures Polled(s, c, vs + [v], w)
  {
    hide Counted;
  }

  lemma VoteArrives(n: Node, vs: seq<NodeId>, s: Cluster, v: NodeId)
    requires n.id in s.nodes && s.nodes[n.id].id == n.id && Counted(n, vs, s.nodes[n.id])
    requires s.nodes[n.id].commitIndex <= s.nodes[n.id].lastApplied <= |s.nodes[n.id].log|
    requires Envelope(v, n.id, RequestVoteReply(n.term, true)) in s.net
    ensures var a := Deliver(Envelope(v, n.id, RequestVoteReply(n.term, true)));
            && Enabled(s, a) && OnlyThese(s, Act(s, a), n.id, n.id)
            && Counted(n, vs + [v], Act(s, a).nodes[n.id])
  {
    hide OnRequestVoteReply;
    GrantArrives(n, vs, s.nodes[n.id].(outbox := []), v);
  }

  lemma ContinuesMeans(run: seq<Cluster>, acts: seq<Action>, r: seq<Cluster>)
    requires Continues(run, acts, r)
    ensures IsRun(r) && |run| > 0 && |r| > 0 && run <= r && After(End(run), acts) == Some(End(r))
  {
  }

  lemma {:induction false} BallotCounts(run: seq<Cluster>, c: NodeId, vs: seq<NodeId>) returns (r: seq<Cluster>)
    requires |run| > 0 && IsRun(run)
    requires var s := End(run); c in s.nodes && s.nodes[c].role == Candidate && MayVote(s, s.nodes[c], vs)
    ensures var s := End(run);
            Continues(run, Ballot(s.nodes[c], vs), r) && |r| > 0 && Polled(s, c, vs, End(r))
    decreases |vs|
  {
    hide IsRun, Free, NotBehind, RequestOf;
    var n := End(run).nodes[c];
    StateAt(run, c);
    if vs == [] {
      r := run;
    } else {
      var us, v := vs[..|vs| - 1], vs[|vs| - 1];
      assert vs == us + [v];
      r := BallotCounts(run, c, us);
      r := Answer(run, c, us, v, r);
    }
  }

  // An election can be won: in every reachable state, a candidate for whom so many may vote that
  // they and it are more than half of the cluster becomes the leader of its term once its
  // requests reach them and their answers reach it.
  lemma ElectionIsWon(run: seq<Cluster>, c: NodeId, vs: seq<NodeId>) returns (r: seq<Cluster>)
    requires |run| > 0 && IsRun(run)
    requires var s := End(run);
             && c in s.nodes && s.nodes[c].role == Candidate && MayVote(s, s.nodes[c], vs)
             && 2 * (|vs| + 1) > |s.nodes.Keys|
    ensures var s := End(run);
            && Continues(run, Ballot(s.nodes[c], vs), r) && |r| > 0 && Polled(s, c, vs, End(r))
            && End(r).nodes[c].role == Leader && End(r).nodes[c].term == s.nodes[c].term
  {
    hide IsRun, Ballot, Free, NotBehind, Continues, Standing;
    var s := End(run);
    r := BallotCounts(run, c, vs);
    ContinuesMeans(run, Ballot(s.nodes[c], vs), r);
    StateAt(run, c);
    StateAt(r, c);
    assert c in s.nodes[c].votes by { assert Standing(s.net, s.nodes[c]); OwnVote(s.net, s.nodes[c]); }
    MajorityLeads(s.nodes.Keys, End(r).net, s.nodes[c], vs, End(r).nodes[c]);
  }

  lemma OwnVote(net: set<Envelope>, n: Node)
    requires Standing(net, n) && n.role == Candidate
    ensures n.id in n.votes
  {
  }

  // A candidate that lacks a majority has not been given one.
  lemma MajorityLeads(ids: set<NodeId>, net: set<Envelope>, n: Node, vs: seq<NodeId>, m: Node)
    requires PeersAre(ids, m) && m.id in ids && Standing(net, m) && Counted(n, vs, m)
    requires n.id in n.votes && NoDuplicates(vs) && n.id !in vs && 2 * (|vs| + 1) > |ids|
    ensures m.role == Leader
  {
    if m.role == Candidate {
      DistinctSize(vs);
      var all := Members(vs) + {n.id};
      assert |all| == |vs| + 1;
      SubsetSize(all, m.votes);
      MajorityIsMoreThanHalf(ids, m, |m.votes|);
    }
  }
}
