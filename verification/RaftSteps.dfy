/** Each small change a Raft node makes keeps the invariant.

    A handler is a chain of such changes: stepping down, standing for election, granting or
    counting a vote, taking office, appending, accepting entries, committing, applying. Each
    lemma says how the history grows with one change and that the invariant survives. */
module RaftSteps {
  import opened Prelude
  import opened RaftMessages
  import opened RaftLog
  import opened RaftSpec
  import opened RaftCluster
  import opened RaftInvariant

  // `h'` grows out of `h` by what node `i` did in term `t`.
  ghost predicate Extends(h: History, h': History, i: NodeId, t: nat) {
    && (forall u :: u in h.logs ==> u in h'.logs && h.logs[u] <= h'.logs[u])
    && (forall u :: u in h'.logs ==> (u in h.logs && h'.logs[u] == h.logs[u]) || u == t)
    && (t in h'.logs ==> (t in h.logs && h'.logs[t] == h.logs[t]) || (t in h'.elections && h'.elections[t].leader == i))
    && (forall u :: u in h.elections ==> u in h'.elections && h'.elections[u] == h.elections[u])
    && (forall u :: u in h'.elections ==> u in h.elections || (u == t && h'.elections[u].leader == i))
    && (forall k :: k in h.votes ==> k in h'.votes && h'.votes[k] == h.votes[k])
    && (forall k :: k in h'.votes ==> k in h.votes || k == (i, t))
    && (forall k :: k in h.acks ==> k in h'.acks && h.acks[k] <= h'.acks[k])
    && (forall k :: k in h'.acks ==> (k in h.acks && h'.acks[k] == h.acks[k]) || k == (i, t))
    && (forall u :: u in h.commits ==> u in h'.commits && h.commits[u].index <= h'.commits[u].index)
    && (forall u :: u in h'.commits ==>
          (u in h.commits && h'.commits[u] == h.commits[u])
              || (u == t && u in h'.elections && h'.elections[u].leader == i))
  }

  lemma RootedGrows(h: History, h': History, i: NodeId, t: nat, l: seq<LogEntry>, k: nat)
    requires Extends(h, h', i, t)
    requires 0 < k <= |l| && Anchored(h.logs, l, k)
    ensures Anchored(h'.logs, l, k)
  {
    var u := l[k - 1].term;
    assert h'.logs[u][..k] == h.logs[u][..k];
  }

  lemma CommittedGrows(h: History, h': History, i: NodeId, t: nat, p: seq<LogEntry>, a: nat, b: nat)
    requires Extends(h, h', i, t) && Committed(h, p, a) && a <= b
    ensures Committed(h', p, b)
  {
    if |p| > 0 {
      var u: nat :| u <= a && CommittedIn(h, p, u);
      assert CommittedIn(h', p, u);
    }
  }

  lemma AppliedGrows(h: History, h': History, i: NodeId, t: nat, n: Node, n': Node)
    requires Extends(h, h', i, t) && AppliedOK(h, n)
    requires n.log <= n'.log && n.term <= n'.term
    requires n'.commitIndex == n.commitIndex && n'.lastApplied == n.lastApplied && n'.applied == n.applied
    ensures AppliedOK(h', n')
  {
    hide Extends;
    assert n'.log[..n.commitIndex] == n.log[..n.commitIndex];
    assert n'.log[..n.lastApplied] == n.log[..n.lastApplied];
    CommittedGrows(h, h', i, t, n.log[..n.commitIndex], n.term, n'.term);
    CommittedGrows(h, h', i, t, n.log[..n.lastApplied], n.term, n'.term);
  }

  lemma CoversGrows(h: History, h': History, i: NodeId, t: nat, v: NodeId, u: nat, l: seq<LogEntry>)
    requires Extends(h, h', i, t) && Covers(h, v, u, l)
    requires v == i ==> u <= t
    ensures Covers(h', v, u, l)
  {
    forall w | w < u && (v, w) in h'.acks ensures UpToDate(l, w, h'.acks[(v, w)]) {
      assert (v, w) in h.acks && h'.acks[(v, w)] == h.acks[(v, w)];
    }
  }

  lemma TermLogGrows(h: History, h': History, i: NodeId, t: nat, u: nat)
    requires Extends(h, h', i, t)
    requires u in h.logs && u in h.elections && TermLog(h, u) && h'.logs[u] == h.logs[u]
    ensures TermLog(h', u)
  {
    forall k | 0 < k <= |h'.logs[u]| ensures Anchored(h'.logs, h'.logs[u], k) {
      assert Anchored(h.logs, h.logs[u], k);
      RootedGrows(h, h', i, t, h.logs[u], k);
    }
  }

  lemma WonGrows(ids: set<NodeId>, h: History, h': History, i: NodeId, t: nat, u: nat)
    requires Extends(h, h', i, t)
    requires forall w :: (i, w) in h.votes ==> w <= t
    requires u in h.logs && u in h.elections && Won(ids, h, u)
    ensures Won(ids, h', u)
  {
    var e := h.elections[u];
    assert h'.logs[u][..e.base] == h.logs[u][..e.base];
    forall v | v in e.electors ensures Covers(h', v, u, h'.logs[u][..e.base]) {
      assert (v, u) in h.votes;
      CoversGrows(h, h', i, t, v, u, h.logs[u][..e.base]);
    }
  }

  lemma AckGrows(h: History, h': History, i: NodeId, t: nat, k: (NodeId, nat))
    requires Extends(h, h', i, t) && k in h.acks && h'.acks[k] == h.acks[k] && AckOK(h, k)
    ensures AckOK(h', k)
  {
  }

  lemma CommitGrows(ids: set<NodeId>, h: History, h': History, i: NodeId, t: nat, u: nat)
    requires Extends(h, h', i, t) && u in h.commits && h'.commits[u] == h.commits[u] && CommitOK(ids, h, u)
    ensures CommitOK(ids, h', u)
  {
  }

  lemma HistoryGrows(ids: set<NodeId>, h: History, h': History, i: NodeId, t: nat)
    requires HistoryOK(ids, h) && Extends(h, h', i, t)
    requires forall u :: (i, u) in h.votes ==> u <= t
    requires h'.logs.Keys == h'.elections.Keys
    requires t in h'.logs ==> (t in h.logs && h'.logs[t] == h.logs[t]) || TermLog(h', t)
    requires t in h'.elections ==> t in h.elections || Won(ids, h', t)
    requires (i, t) in h'.acks ==> ((i, t) in h.acks && h'.acks[(i, t)] == h.acks[(i, t)]) || AckOK(h', (i, t))
    requires t in h'.commits ==> (t in h.commits && h'.commits[t] == h.commits[t]) || CommitOK(ids, h', t)
    ensures HistoryOK(ids, h')
  {
    hide TermLog, Won, AckOK, CommitOK;
    forall u | u in h'.logs ensures TermLog(h', u) {
      if u in h.logs && h'.logs[u] == h.logs[u] { TermLogGrows(h, h', i, t, u); }
    }
    forall u | u in h'.elections ensures Won(ids, h', u) {
      if u in h.elections { WonGrows(ids, h, h', i, t, u); }
    }
    forall k | k in h'.acks ensures AckOK(h', k) {
      if k in h.acks && h'.acks[k] == h.acks[k] { AckGrows(h, h', i, t, k); }
    }
    forall u | u in h'.commits ensures CommitOK(ids, h', u) {
      if u in h.commits && h'.commits[u] == h.commits[u] { CommitGrows(ids, h, h', i, t, u); }
    }
  }

  lemma OtherRole(ids: set<NodeId>, h: History, h': History, i: NodeId, t: nat, n: Node)
    requires RoleOK(ids, h, n) && Extends(h, h', i, t) && n.id != i
    requires forall u :: (i, u) in h.votes ==> u <= t
    ensures RoleOK(ids, h', n)
  {
    if n.role == Candidate {
      forall v | v in n.votes ensures Covers(h', v, n.term, n.log) {
        CoversGrows(h, h', i, t, v, n.term, n.log);
      }
    }
    hide Covers;
  }

  lemma OtherNode(ids: set<NodeId>, h: History, h': History, i: NodeId, t: nat, n: Node)
    requires NodeOK(ids, h, n) && Extends(h, h', i, t) && n.id != i
    requires forall u :: (i, u) in h.votes ==> u <= t
    ensures NodeOK(ids, h', n)
  {
    hide RoleOK, AppliedOK;
    if |n.log| > 0 { RootedGrows(h, h', i, t, n.log, |n.log|); }
    AppliedGrows(h, h', i, t, n, n);
    OtherRole(ids, h, h', i, t, n);
    forall u | (n.id, u) in h'.votes
      ensures u <= n.term && (u == n.term ==> n.votedFor == Some(h'.votes[(n.id, u)]))
    {
      assert (n.id, u) in h.votes;
    }
    forall u | (n.id, u) in h'.acks ensures u <= n.term && UpToDate(n.log, u, h'.acks[(n.id, u)]) {
      assert (n.id, u) in h.acks;
    }
  }

  // A node may only start standing for election in a new term, and its log stays put meanwhile.
  predicate CandidacyKept(n: Node, n': Node) {
    n.term <= n'.term && (n'.role == Candidate && n'.term == n.term ==> n.role == Candidate && n'.log == n.log)
  }

  lemma OldMessage(nodes: map<NodeId, Node>, h: History, h': History, n': Node, e: Envelope)
    requires MessageOK(nodes, h, e)
    requires n'.id in nodes && CandidacyKept(nodes[n'.id], n')
    requires Extends(h, h', n'.id, n'.term)
    requires forall u :: (n'.id, u) in h.votes ==> u <= n'.term
    ensures MessageOK(nodes[n'.id := n'], h', e)
  {
    match e.body
    case RequestVote(t, c, _, _) =>
    case RequestVoteReply(t, granted) =>
      if granted {
        var n := nodes[n'.id := n'][e.dst];
        if t == n.term && n.role == Candidate {
          CoversGrows(h, h', n'.id, n'.term, e.src, t, n.log);
        }
      }
    case AppendEntries(t, _, _, _, _, c) =>
      assert h'.logs[t][..c] == h.logs[t][..c];
      CommittedGrows(h, h', n'.id, n'.term, h.logs[t][..c], t, t);
    case AppendEntriesReply(_, _, _) =>
  }

  lemma VotesPast(ids: set<NodeId>, h: History, n: Node, n': Node)
    requires NodeOK(ids, h, n) && CandidacyKept(n, n')
    ensures forall u :: (n.id, u) in h.votes ==> u <= n'.term
  {
  }

  // It is enough to look at the history, the node that acted, and what it newly sent.
  lemma PutKeepsInv(s: Cluster, h: History, h': History, n': Node)
    requires Inv(s, h) && n'.id in s.nodes
    requires CandidacyKept(s.nodes[n'.id], n')
    requires Extends(h, h', n'.id, n'.term)
    requires HistoryOK(s.nodes.Keys, h')
    requires NodeOK(s.nodes.Keys, h', n')
    requires forall e :: e in n'.outbox ==> e in s.net || MessageOK(s.nodes[n'.id := n'], h', e)
    ensures Inv(Put(s, n'), h')
  {
    hide NodeOK, MessageOK, HistoryOK, Extends, CandidacyKept;
    var ids, s' := s.nodes.Keys, Put(s, n');
    assert s'.nodes.Keys == ids;
    VotesPast(ids, h, s.nodes[n'.id], n');
    forall j | j in s'.nodes ensures NodeOK(s'.nodes.Keys, h', s'.nodes[j]) {
      if j != n'.id {
        OtherNode(ids, h, h', n'.id, n'.term, s.nodes[j]);
      }
    }
    forall e | e in s'.net ensures MessageOK(s'.nodes, h', e) {
      if e in s.net {
        OldMessage(s.nodes, h, h', n', e);
      }
    }
  }

  // ----- changes that leave the history alone -----

  // Everything the invariant looks at, apart from what the change at hand names.
  predicate SameLog(n: Node, n': Node) {
    && n'.id == n.id && n'.peers == n.peers && n'.log == n.log
    && n'.lastApplied == n.lastApplied && n'.applied == n.applied
  }

  predicate SameOffice(n: Node, n': Node) {
    && n'.role == n.role && n'.term == n.term && n'.votedFor == n.votedFor
  }

  // Stepping down, deferring to a leader, or restarting from what was saved.
  lemma StepDown(ids: set<NodeId>, h: History, n: Node, n': Node)
    requires NodeOK(ids, h, n) && SameLog(n, n')
    requires n'.role == Follower && n'.term >= n.term
    requires n'.votedFor == if n'.term > n.term then None else n.votedFor
    requires n'.commitIndex == n.commitIndex || n'.commitIndex == 0
    ensures NodeOK(ids, h, n') && CandidacyKept(n, n')
  {
    hide Rooted;
    CommittedGrows(h, h, n.id, n.term, n.log[..n.commitIndex], n.term, n'.term);
    CommittedGrows(h, h, n.id, n.term, n.log[..n.lastApplied], n.term, n'.term);
  }

  // Changing nothing the invariant looks at.
  lemma Unchanged(ids: set<NodeId>, h: History, n: Node, n': Node)
    requires NodeOK(ids, h, n) && SameLog(n, n') && SameOffice(n, n')
    requires n'.commitIndex == n.commitIndex && n'.votes == n.votes
    requires n'.nextIndex == n.nextIndex && n'.matchIndex == n.matchIndex
    ensures NodeOK(ids, h, n') && CandidacyKept(n, n')
  {
  }

  // A candidate counts a vote that a reply in the network grants it.
  lemma CountVote(ids: set<NodeId>, h: History, n: Node, v: NodeId)
    requires NodeOK(ids, h, n) && n.role == Candidate && v in ids
    requires (v, n.term) in h.votes && h.votes[(v, n.term)] == n.id && Covers(h, v, n.term, n.log)
    ensures NodeOK(ids, h, n.(votes := n.votes + {v}))
  {
    hide Rooted, Covers;
  }

  // A leader learns how far a peer's log matches its own.
  lemma LearnMatch(ids: set<NodeId>, h: History, n: Node, p: NodeId, index: nat)
    requires NodeOK(ids, h, n) && n.role == Leader && p in ids && p != n.id
    requires (p, n.term) in h.acks && index <= h.acks[(p, n.term)] && AckOK(h, (p, n.term))
    ensures NodeOK(ids, h, Matched(n, p, index))
  {
    hide Rooted;
  }

  lemma BackOff(ids: set<NodeId>, h: History, n: Node, p: NodeId, index: nat)
    requires NodeOK(ids, h, n) && n.role == Leader && p in ids && p != n.id
    ensures NodeOK(ids, h, BackedOff(n, p, index))
  {
    hide Rooted;
  }

  // A node applies what it knows to be committed.
  lemma ApplyKeeps(ids: set<NodeId>, h: History, n: Node)
    requires NodeOK(ids, h, n)
    ensures NodeOK(ids, h, ApplyCommitted(n))
  {
    var n' := ApplyCommitted(n);
    assert AppliedOK(h, n');
    hide Rooted, AppliedOK;
    assert RoleOK(ids, h, n') && VotesOK(h, n') && AcksOK(h, n');
  }

  // ----- messages a node in good standing may send -----

  lemma AppendIsOK(ids: set<NodeId>, h: History, n: Node, p: NodeId)
    requires NodeOK(ids, h, n) && n.role == Leader && p in ids && p != n.id
    requires n.term in h.elections && h.elections[n.term].base < |n.log|
    ensures AppendOK(h, n.id, AppendTo(n, p).body)
  {
    hide Rooted, VotesOK, AcksOK;
    assert n.nextIndex[p] <= |n.log| + 1;
    var prev := Next(n, p) - 1;
    assert EntriesFrom(n.log, prev + 1) == n.log[prev..|n.log|];
  }

  // ----- changes that add to the history -----

  // Standing for election records a vote for oneself.
  lemma Stand(ids: set<NodeId>, h: History, n: Node) returns (h': History)
    requires NodeOK(ids, h, n) && HistoryOK(ids, h) && n.id in ids
    ensures Extends(h, h', n.id, n.term + 1) && HistoryOK(ids, h')
    ensures NodeOK(ids, h', AsCandidate(n)) && CandidacyKept(n, AsCandidate(n))
  {
    var t := n.term + 1;
    h' := h.(votes := h.votes[(n.id, t) := n.id]);
    assert Extends(h, h', n.id, t);
    assert VotesOK(h, n);
    HistoryGrows(ids, h, h', n.id, t);
    StandNode(ids, h, n, h');
  }

  lemma StandNode(ids: set<NodeId>, h: History, n: Node, h': History)
    requires NodeOK(ids, h, n) && n.id in ids
    requires h' == h.(votes := h.votes[(n.id, n.term + 1) := n.id])
    requires Extends(h, h', n.id, n.term + 1)
    ensures NodeOK(ids, h', AsCandidate(n))
  {
    hide Extends, AppliedOK;
    AppliedGrows(h, h', n.id, n.term + 1, n, AsCandidate(n));
    assert Covers(h', n.id, n.term + 1, n.log);
  }

  // Granting a vote records it.
  lemma GrantVote(ids: set<NodeId>, h: History, n: Node, c: NodeId, n': Node) returns (h': History)
    requires NodeOK(ids, h, n) && HistoryOK(ids, h)
    requires n.votedFor == None || n.votedFor == Some(c)
    requires n' == Persist(n.(votedFor := Some(c)))
    ensures Extends(h, h', n.id, n.term) && HistoryOK(ids, h')
    ensures NodeOK(ids, h', n') && CandidacyKept(n, n')
    ensures (n.id, n.term) in h'.votes && h'.votes[(n.id, n.term)] == c
    ensures h'.acks == h.acks
  {
    h' := h.(votes := h.votes[(n.id, n.term) := c]);
    assert VotesOK(h, n);
    assert Extends(h, h', n.id, n.term);
    HistoryGrows(ids, h, h', n.id, n.term);
    GrantNode(ids, h, n, c, n', h');
  }

  lemma GrantNode(ids: set<NodeId>, h: History, n: Node, c: NodeId, n': Node, h': History)
    requires NodeOK(ids, h, n)
    requires n.votedFor == None || n.votedFor == Some(c)
    requires n' == Persist(n.(votedFor := Some(c)))
    requires h' == h.(votes := h.votes[(n.id, n.term) := c])
    requires Extends(h, h', n.id, n.term)
    ensures NodeOK(ids, h', n')
  {
    hide Extends, AppliedOK, Rooted;
    AppliedGrows(h, h', n.id, n.term, n, n');
    if n.role == Candidate {
      forall v | v in n.votes ensures Covers(h', v, n.term, n.log) {
        assert Covers(h, v, n.term, n.log);
      }
    }
  }

  lemma ClusterSize(ids: set<NodeId>, n: Node)
    requires PeersAre(ids, n) && n.id in ids
    ensures |ids| == |n.peers| + 1
    ensures forall q :: q <= ids && HasMajority(n, |q|) ==> Quorum(ids, q)
  {
    DistinctSize(n.peers);
    assert ids == Members(n.peers) + {n.id};
  }

  lemma {:induction false} DistinctSize(s: seq<NodeId>)
    requires NoDuplicates(s)
    ensures |Members(s)| == |s|
  {
    if |s| > 0 {
      var r, last := s[..|s| - 1], s[|s| - 1];
      DistinctSize(r);
      assert s == r + [last];
      assert last !in Members(r);
      assert Members(s) == Members(r) + {last};
    }
  }

  // Two quorums share a voter, who voted once: nobody else has won this term.
  lemma TermOpen(ids: set<NodeId>, h: History, n: Node)
    requires NodeOK(ids, h, n) && HistoryOK(ids, h) && n.role == Candidate && Quorum(ids, n.votes)
    ensures n.term !in h.elections && n.term !in h.logs && n.term !in h.commits
    ensures forall v :: (v, n.term) !in h.acks
  {
    RecordsHaveLeaders(ids, h);
    if n.term in h.elections {
      assert Won(ids, h, n.term);
      var v := QuorumsMeet(ids, n.votes, h.elections[n.term].electors);
      assert false;
    }
  }

  lemma RecordsHaveLeaders(ids: set<NodeId>, h: History)
    requires HistoryOK(ids, h)
    ensures forall k :: k in h.acks ==> k.1 in h.logs
    ensures forall t :: t in h.commits ==> t in h.logs
  {
    hide TermLog, Won;
    forall k | k in h.acks ensures k.1 in h.logs { assert AckOK(h, k); }
    forall t | t in h.commits ensures t in h.logs { assert CommitOK(ids, h, t); }
  }

  ghost function Elected(h: History, n: Node): History {
    var l := n.log + [LogEntry(n.term, Noop)];
    h.(logs := h.logs[n.term := l],
       elections := h.elections[n.term := Election(n.id, n.votes, |n.log|)],
       acks := h.acks[(n.id, n.term) := |l|])
  }

  lemma ElectedTermLog(ids: set<NodeId>, h: History, n: Node)
    requires HistoryOK(ids, h) && Rooted(h.logs, n.log) && LastTerm(n.log) < n.term
    requires n.term !in h.logs
    ensures TermLog(Elected(h, n), n.term)
  {
    RootedPrefixes(ids, h, n.log);
    hide HistoryOK;
    var h' := Elected(h, n);
    var l := h'.logs[n.term];
    forall i | 0 < i <= |l| ensures Anchored(h'.logs, l, i) {
      if i <= |n.log| {
        assert Anchored(h.logs, n.log, i);
        assert l[..i] == n.log[..i];
      }
    }
  }

  // A majority of votes makes a leader: the history gains its election, its log and its own ack.
  lemma TakeOffice(ids: set<NodeId>, h: History, n: Node) returns (h': History)
    requires NodeOK(ids, h, n) && HistoryOK(ids, h) && n.id in ids
    requires n.role == Candidate && HasMajority(n, |n.votes|)
    ensures Extends(h, h', n.id, n.term) && HistoryOK(ids, h')
    ensures NodeOK(ids, h', AsLeader(n)) && CandidacyKept(n, AsLeader(n))
  {
    ClusterSize(ids, n);
    TermOpen(ids, h, n);
    h' := Elected(h, n);
    ElectedTermLog(ids, h, n);
    ElectedExtends(ids, h, n);
    ElectedWon(ids, h, n);
    VotesPast(ids, h, n, n);
    ElectedNode(ids, h, n);
    hide NodeOK, TermLog, Won, Extends;
    ElectedHistory(ids, h, n);
  }

  lemma ElectedHistory(ids: set<NodeId>, h: History, n: Node)
    requires HistoryOK(ids, h) && Extends(h, Elected(h, n), n.id, n.term)
    requires forall u :: (n.id, u) in h.votes ==> u <= n.term
    requires n.term !in h.elections && n.term !in h.commits
    requires TermLog(Elected(h, n), n.term) && Won(ids, Elected(h, n), n.term)
    ensures HistoryOK(ids, Elected(h, n))
  {
    hide TermLog, Won, Extends;
    HistoryGrows(ids, h, Elected(h, n), n.id, n.term);
  }

  lemma ElectedExtends(ids: set<NodeId>, h: History, n: Node)
    requires n.term !in h.elections && n.term !in h.logs && (n.id, n.term) !in h.acks
    ensures Extends(h, Elected(h, n), n.id, n.term)
  {
  }

  lemma ElectedWon(ids: set<NodeId>, h: History, n: Node)
    requires NodeOK(ids, h, n) && n.id in ids && n.role == Candidate && Quorum(ids, n.votes)
    requires forall v :: (v, n.term) !in h.acks
    ensures Won(ids, Elected(h, n), n.term)
  {
    var h' := Elected(h, n);
    assert h'.logs[n.term][..|n.log|] == n.log;
    forall v | v in n.votes ensures Covers(h', v, n.term, n.log) {
      assert Covers(h, v, n.term, n.log);
    }
  }

  lemma ElectedNode(ids: set<NodeId>, h: History, n: Node)
    requires NodeOK(ids, h, n) && n.id in ids && n.role == Candidate
    requires n.term !in h.elections && n.term !in h.logs && n.term !in h.commits && (n.id, n.term) !in h.acks
    requires Extends(h, Elected(h, n), n.id, n.term)
    ensures NodeOK(ids, Elected(h, n), AsLeader(n))
  {
    var h', n' := Elected(h, n), AsLeader(n);
    hide Extends, RoleOK, AppliedOK;
    AppliedGrows(h, h', n.id, n.term, n, n');
    ElectedRole(ids, h, n);
  }

  lemma ElectedRole(ids: set<NodeId>, h: History, n: Node)
    requires RoleOK(ids, h, n) && PeersAre(ids, n) && n.role == Candidate
    requires n.term !in h.elections && n.term !in h.logs && n.term !in h.commits
    ensures RoleOK(ids, Elected(h, n), AsLeader(n))
  {
    hide Covers;
    var n' := AsLeader(n);
    assert n'.nextIndex.Keys == ids - {n.id};
    assert n'.matchIndex.Keys == ids - {n.id};
  }

  // ----- a leader appends -----

  ghost function Appended(h: History, n: Node): History {
    h.(logs := h.logs[n.term := n.log], acks := h.acks[(n.id, n.term) := |n.log|])
  }

  lemma AppendedTermLog(ids: set<NodeId>, h: History, n: Node, l: seq<LogEntry>, command: Command)
    requires HistoryOK(ids, h) && n.term in h.logs && n.term in h.elections && h.logs[n.term] == l
    requires n.log == l + [LogEntry(n.term, command)]
    ensures TermLog(Appended(h, n), n.term)
  {
    assert TermLog(h, n.term);
    var h' := Appended(h, n);
    forall i | 0 < i <= |n.log| ensures Anchored(h'.logs, n.log, i) {
      if i < |n.log| {
        assert Anchored(h.logs, l, i);
        assert n.log[..i] == l[..i];
        var u := l[i - 1].term;
        assert h'.logs[u][..i] == h.logs[u][..i];
      }
    }
  }

  lemma AppendedNode(ids: set<NodeId>, h: History, n: Node, n': Node, command: Command)
    requires NodeOK(ids, h, n) && n.role == Leader
    requires n' == Persist(n.(log := n.log + [LogEntry(n.term, command)]))
    requires Extends(h, Appended(h, n'), n.id, n.term)
    ensures NodeOK(ids, Appended(h, n'), n')
  {
    hide Extends, AppliedOK;
    AppliedGrows(h, Appended(h, n'), n.id, n.term, n, n');
  }

  lemma LeaderAppend(ids: set<NodeId>, h: History, n: Node, n': Node, command: Command) returns (h': History)
    requires NodeOK(ids, h, n) && HistoryOK(ids, h) && n.role == Leader
    requires n' == Persist(n.(log := n.log + [LogEntry(n.term, command)]))
    ensures Extends(h, h', n.id, n.term) && HistoryOK(ids, h')
    ensures NodeOK(ids, h', n') && CandidacyKept(n, n')
  {
    h' := Appended(h, n');
    AppendedTermLog(ids, h, n', n.log, command);
    AckWithinTerm(ids, h, n.id, n.term);
    VotesPast(ids, h, n, n);
    AppendedExtends(ids, h, n, n');
    AppendedNode(ids, h, n, n', command);
    hide NodeOK, TermLog, Extends;
    AppendedHistory(ids, h, n');
  }

  lemma AppendedExtends(ids: set<NodeId>, h: History, n: Node, n': Node)
    requires RoleOK(ids, h, n) && n.role == Leader
    requires n'.id == n.id && n'.term == n.term && n.log <= n'.log
    ensures Extends(h, Appended(h, n'), n.id, n.term)
  {
    hide Covers;
  }

  lemma AckWithinTerm(ids: set<NodeId>, h: History, v: NodeId, t: nat)
    requires HistoryOK(ids, h) && t in h.logs
    ensures (v, t) in h.acks ==> h.acks[(v, t)] <= |h.logs[t]|
    ensures t in h.elections && h.elections[t].base < |h.logs[t]|
  {
    hide Won, CommitOK, Anchored;
    assert TermLog(h, t);
    assert (v, t) in h.acks ==> AckOK(h, (v, t));
  }

  lemma AppendedHistory(ids: set<NodeId>, h: History, n: Node)
    requires HistoryOK(ids, h) && Extends(h, Appended(h, n), n.id, n.term)
    requires forall u :: (n.id, u) in h.votes ==> u <= n.term
    requires n.term in h.elections && TermLog(Appended(h, n), n.term)
    ensures HistoryOK(ids, Appended(h, n))
  {
    var h' := Appended(h, n);
    assert AckOK(h', (n.id, n.term));
    hide TermLog, Extends, AckOK;
    HistoryGrows(ids, h, h', n.id, n.term);
  }

  // ----- a leader commits -----

  ghost function Recorded(h: History, n: Node, c: nat): History {
    h.(commits := h.commits[n.term := Commit(c, Holders(n, c) + {n.id})])
  }

  lemma RecordedCommit(ids: set<NodeId>, h: History, n: Node, c: nat)
    requires NodeOK(ids, h, n) && n.id in ids && n.role == Leader
    requires 0 < c <= |n.log| && Committable(n, c) && TermLog(h, n.term)
    ensures CommitOK(ids, Recorded(h, n, c), n.term)
  {
    var q := Holders(n, c) + {n.id};
    ClusterSize(ids, n);
    assert n.id !in Members(n.peers);
    assert n.id !in Holders(n, c);
    forall p | p in Holders(n, c) ensures p in ids && (p, n.term) in h.acks && h.acks[(p, n.term)] >= c {
      assert p in Members(n.peers);
    }
    assert n.log[c - 1].term == n.term;
  }

  lemma RecordedNode(ids: set<NodeId>, h: History, n: Node, c: nat)
    requires NodeOK(ids, h, n) && n.role == Leader
    requires n.commitIndex < c <= |n.log|
    ensures NodeOK(ids, Recorded(h, n, c), n.(commitIndex := c))
    ensures Extends(h, Recorded(h, n, c), n.id, n.term)
  {
    hide Rooted, Covers;
    var h', n' := Recorded(h, n, c), n.(commitIndex := c);
    assert Extends(h, h', n.id, n.term);
    CommittedGrows(h, h', n.id, n.term, n.log[..n.lastApplied], n.term, n.term);
    assert CommittedIn(h', n.log[..c], n.term);
  }

  // A majority holding an entry of the leader's own term commits it and everything before it.
  lemma CommitAt(ids: set<NodeId>, h: History, n: Node, c: nat) returns (h': History)
    requires NodeOK(ids, h, n) && HistoryOK(ids, h) && n.id in ids && n.role == Leader
    requires n.commitIndex < c <= |n.log| && Committable(n, c)
    ensures Extends(h, h', n.id, n.term) && HistoryOK(ids, h')
    ensures NodeOK(ids, h', n.(commitIndex := c)) && h'.acks == h.acks
  {
    h' := Recorded(h, n, c);
    assert TermLog(h, n.term);
    RecordedCommit(ids, h, n, c);
    RecordedNode(ids, h, n, c);
    VotesPast(ids, h, n, n);
    hide NodeOK, Extends, TermLog, CommitOK;
    HistoryGrows(ids, h, h', n.id, n.term);
  }

  // ----- a follower accepts -----

  // A splice of `l`'s entries up to `end` into `log` gave `r`: either `log` itself, which
  // already held them, or exactly `l` up to `end`.
  predicate TookOver(log: seq<LogEntry>, l: seq<LogEntry>, end: nat, r: seq<LogEntry>) {
    && end <= |r| && end <= |l| && r[..end] == l[..end]
    && (r == log || (r == l[..end] && !(l[..end] <= log)))
  }

  lemma {:induction false} SpliceOfSlice(log: seq<LogEntry>, l: seq<LogEntry>, prev: nat, end: nat)
    requires prev <= |log| && prev <= end <= |l|
    requires var k := MatchLength(log, prev, l[prev..end]); log[..prev + k] == l[..prev + k]
    ensures TookOver(log, l, end, Splice(log, prev, l[prev..end]))
  {
    hide MatchLength, TookOver;
    var es := l[prev..end];
    var k := MatchLength(log, prev, es);
    if k < |es| {
      assert es[k] == l[prev + k];
      SpliceAt(log, l, prev, end, k);
    } else {
      SpliceNothing(log, l, end);
    }
  }

  lemma SpliceNothing(log: seq<LogEntry>, l: seq<LogEntry>, end: nat)
    requires end <= |log| && end <= |l| && log[..end] == l[..end]
    ensures TookOver(log, l, end, log)
  {
  }

  lemma SpliceAt(log: seq<LogEntry>, l: seq<LogEntry>, prev: nat, end: nat, k: nat)
    requires prev + k <= |log| && prev + k < end <= |l|
    requires log[..prev + k] == l[..prev + k]
    requires prev + k < |log| ==> log[prev + k].term != l[prev + k].term
    ensures TookOver(log, l, end, log[..prev + k] + l[prev..end][k..])
  {
    assert l[prev..end][k..] == l[prev + k..end];
    assert l[..end] == l[..prev + k] + l[prev + k..end];
    assert l[..end][prev + k] == l[prev + k];
  }

  // Terms are all that is compared, yet the matched part holds the leader's very entries.
  lemma {:induction false} MatchedIsLeaders(ids: set<NodeId>, h: History, log: seq<LogEntry>, l: seq<LogEntry>,
                                            prev: nat, end: nat)
    requires HistoryOK(ids, h) && Rooted(h.logs, log) && Rooted(h.logs, l)
    requires prev <= |log| && prev <= end <= |l| && TermAt(log, prev) == TermAt(l, prev)
    ensures var k := MatchLength(log, prev, l[prev..end]); log[..prev + k] == l[..prev + k]
  {
    hide MatchLength, HistoryOK, Rooted;
    var es := l[prev..end];
    var k := MatchLength(log, prev, es);
    if k > 0 {
      assert es[k - 1] == l[prev + k - 1];
    }
    SameTermSamePrefix(ids, h, log, l, prev + k);
  }

  lemma LeaderLogRooted(ids: set<NodeId>, h: History, t: nat, k: nat)
    requires HistoryOK(ids, h) && t in h.logs && k <= |h.logs[t]|
    ensures Rooted(h.logs, h.logs[t][..k])
  {
    hide TermLog, Won, AckOK, CommitOK, Rooted;
    TermLogRooted(h, t, k);
  }

  // What a node in the sender's term holds after a consistent AppendEntries.
  predicate Taking(h: History, n: Node, ae: Body) {
    && ae.AppendEntries?
    && n.term == ae.term
    && ae.term in h.logs
    && Consistent(n, ae)
    && TookOver(n.log, h.logs[ae.term], ae.prevLogIndex + |ae.entries|, Accepted(n, ae).log)
  }

  lemma AcceptTakes(ids: set<NodeId>, h: History, n: Node, src: NodeId, ae: Body)
    requires HistoryOK(ids, h) && Rooted(h.logs, n.log)
    requires ae.AppendEntries? && AppendOK(h, src, ae) && n.term == ae.term && Consistent(n, ae)
    ensures Taking(h, n, ae)
  {
    hide HistoryOK, Rooted, Committed, TookOver, MatchLength, Splice;
    var l, end := h.logs[ae.term], ae.prevLogIndex + |ae.entries|;
    LeaderLogRooted(ids, h, ae.term, |l|);
    assert l[..|l|] == l;
    MatchedIsLeaders(ids, h, n.log, l, ae.prevLogIndex, end);
    SpliceOfSlice(n.log, l, ae.prevLogIndex, end);
  }

  lemma TookOverKeeps(log: seq<LogEntry>, l: seq<LogEntry>, end: nat, r: seq<LogEntry>, p: seq<LogEntry>)
    requires TookOver(log, l, end, r) && p <= log && p <= l
    ensures p <= r
  {
    assert |p| >= end ==> l[..end] == p[..end] && l[..end] <= log;
  }

  // Nothing committed is ever truncated: a committed prefix of the follower's log is a prefix
  // of the leader's too, so no conflict can lie inside it.
  lemma AcceptKeepsCommitted(ids: set<NodeId>, h: History, n: Node, ae: Body, p: seq<LogEntry>)
    requires HistoryOK(ids, h) && Taking(h, n, ae)
    requires p <= n.log && Committed(h, p, n.term)
    ensures p <= Accepted(n, ae).log
  {
    CommittedInLeader(ids, h, p, ae.term, ae.term);
    hide HistoryOK, Committed, TookOver, Splice;
    TookOverKeeps(n.log, h.logs[ae.term], ae.prevLogIndex + |ae.entries|, Accepted(n, ae).log, p);
  }

  // The log stays at least as up to date as all it has acknowledged, now including the end of
  // the entries taken over.
  lemma TookOverUpToDate(log: seq<LogEntry>, l: seq<LogEntry>, end: nat, r: seq<LogEntry>, u: nat, t: nat, m: nat)
    requires TookOver(log, l, end, r) && 0 < end && l[end - 1].term == u
    requires Monotone(log) && LastTerm(log) <= u && (LastTerm(log) == u ==> log == [] || log <= l)
    requires t <= u && (UpToDate(log, t, m) || (t == u && m <= end))
    ensures UpToDate(r, t, m)
  {
    assert r[end - 1] == r[..end][end - 1] == l[..end][end - 1] == l[end - 1];
    if r != log && log <= l {
      assert log == l[..|log|];
    }
  }

  lemma OwnTermEntry(ids: set<NodeId>, h: History, t: nat, i: nat)
    requires HistoryOK(ids, h) && t in h.logs && t in h.elections && h.elections[t].base < i <= |h.logs[t]|
    ensures h.logs[t][i - 1].term == t
  {
    hide Won, AckOK, CommitOK, Anchored;
    assert TermLog(h, t);
  }

  lemma LatestTermIsLeaderPrefix(h: History, l: seq<LogEntry>, t: nat)
    requires Rooted(h.logs, l) && t in h.logs
    ensures LastTerm(l) == t ==> l == [] || l <= h.logs[t]
  {
    assert l[..|l|] == l;
  }

  lemma AcceptStaysUpToDate(ids: set<NodeId>, h: History, n: Node, src: NodeId, ae: Body, t: nat, m: nat)
    requires HistoryOK(ids, h) && Taking(h, n, ae) && AppendOK(h, src, ae)
    requires Rooted(h.logs, n.log) && LastTerm(n.log) <= n.term
    requires t <= n.term && (UpToDate(n.log, t, m) || (t == n.term && m <= ae.prevLogIndex + |ae.entries|))
    ensures UpToDate(Accepted(n, ae).log, t, m)
  {
    RootedPrefixes(ids, h, n.log);
    OwnTermEntry(ids, h, ae.term, ae.prevLogIndex + |ae.entries|);
    LatestTermIsLeaderPrefix(h, n.log, ae.term);
    hide HistoryOK, Rooted, TookOver, Splice, UpToDate, Committed, Monotone;
    TookOverUpToDate(n.log, h.logs[ae.term], ae.prevLogIndex + |ae.entries|, Accepted(n, ae).log, ae.term, t, m);
  }

  ghost function Acked(h: History, n: Node, end: nat): History {
    var k := (n.id, n.term);
    h.(acks := h.acks[k := Max(end, if k in h.acks then h.acks[k] else 0)])
  }

  lemma AckedHistory(ids: set<NodeId>, h: History, n: Node, end: nat)
    requires HistoryOK(ids, h) && n.term in h.logs && n.term in h.elections
    requires h.elections[n.term].base < end <= |h.logs[n.term]|
    requires forall u :: (n.id, u) in h.votes ==> u <= n.term
    ensures HistoryOK(ids, Acked(h, n, end)) && Extends(h, Acked(h, n, end), n.id, n.term)
  {
    hide TermLog, Won, CommitOK, AckOK, Extends;
    AckWithinTerm(ids, h, n.id, n.term);
    AckedExtends(h, n, end);
    HistoryGrows(ids, h, Acked(h, n, end), n.id, n.term);
  }

  lemma AckedExtends(h: History, n: Node, end: nat)
    requires n.term in h.logs && n.term in h.elections
    requires h.elections[n.term].base < end <= |h.logs[n.term]|
    requires (n.id, n.term) in h.acks ==> h.acks[(n.id, n.term)] <= |h.logs[n.term]|
    ensures Extends(h, Acked(h, n, end), n.id, n.term)
    ensures AckOK(Acked(h, n, end), (n.id, n.term))
  {
  }

  lemma AcceptedRooted(ids: set<NodeId>, h: History, n: Node, src: NodeId, ae: Body)
    requires HistoryOK(ids, h) && Taking(h, n, ae) && AppendOK(h, src, ae)
    requires Rooted(h.logs, n.log) && LastTerm(n.log) <= n.term
    ensures Rooted(h.logs, Accepted(n, ae).log) && LastTerm(Accepted(n, ae).log) <= n.term
  {
    hide HistoryOK, Rooted, Splice, Committed;
    var end := ae.prevLogIndex + |ae.entries|;
    LeaderLogRooted(ids, h, ae.term, end);
    OwnTermEntry(ids, h, ae.term, end);
  }

  lemma AcceptedApplied(ids: set<NodeId>, h: History, n: Node, ae: Body)
    requires HistoryOK(ids, h) && Taking(h, n, ae) && AppliedOK(h, n)
    ensures AppliedOK(h, Accepted(n, ae))
  {
    hide HistoryOK, TookOver, Splice, Committed;
    AcceptKeepsCommitted(ids, h, n, ae, n.log[..n.commitIndex]);
    AcceptKeepsCommitted(ids, h, n, ae, n.log[..n.lastApplied]);
    SamePrefix(n.log, Accepted(n, ae).log, n.commitIndex);
    SamePrefix(n.log, Accepted(n, ae).log, n.lastApplied);
  }

  lemma SamePrefix<T>(a: seq<T>, b: seq<T>, k: nat)
    requires k <= |a| && a[..k] <= b
    ensures k <= |b| && b[..k] == a[..k]
    ensures forall i :: 0 <= i < k ==> a[i] == b[i]
  {
    forall i | 0 <= i < k ensures a[i] == b[i] {
      assert a[..k][i] == b[i];
    }
  }

  lemma AcceptedAcks(ids: set<NodeId>, h: History, n: Node, src: NodeId, ae: Body)
    requires HistoryOK(ids, h) && Taking(h, n, ae) && AppendOK(h, src, ae)
    requires Rooted(h.logs, n.log) && LastTerm(n.log) <= n.term && AcksOK(h, n)
    ensures AcksOK(Acked(h, n, ae.prevLogIndex + |ae.entries|), Accepted(n, ae))
  {
    var h' := Acked(h, n, ae.prevLogIndex + |ae.entries|);
    hide HistoryOK, Taking, AppendOK, Rooted, UpToDate;
    forall t | (n.id, t) in h'.acks ensures t <= n.term && UpToDate(Accepted(n, ae).log, t, h'.acks[(n.id, t)]) {
      AcceptStaysUpToDate(ids, h, n, src, ae, t, h'.acks[(n.id, t)]);
    }
  }

  lemma NodeRooted(ids: set<NodeId>, h: History, n: Node)
    requires NodeOK(ids, h, n)
    ensures Rooted(h.logs, n.log)
  {
    hide Rooted;
  }

  // A follower takes over a leader's entries and acknowledges them.
  lemma AcceptEntries(ids: set<NodeId>, h: History, n: Node, src: NodeId, ae: Body) returns (h': History)
    requires NodeOK(ids, h, n) && HistoryOK(ids, h) && n.role == Follower
    requires ae.AppendEntries? && AppendOK(h, src, ae) && n.term == ae.term && Consistent(n, ae)
    ensures Extends(h, h', n.id, n.term) && HistoryOK(ids, h')
    ensures NodeOK(ids, h', Accepted(n, ae))
    ensures h' == Acked(h, n, ae.prevLogIndex + |ae.entries|)
    ensures Taking(h, n, ae)
  {
    hide HistoryOK, Extends, Taking, Splice, NodeOK, Rooted;
    var end := ae.prevLogIndex + |ae.entries|;
    h' := Acked(h, n, end);
    NodeRooted(ids, h, n);
    AcceptTakes(ids, h, n, src, ae);
    VotesPast(ids, h, n, n);
    AckedHistory(ids, h, n, end);
    AcceptedNode(ids, h, n, src, ae);
  }

  lemma AcceptedNode(ids: set<NodeId>, h: History, n: Node, src: NodeId, ae: Body)
    requires NodeOK(ids, h, n) && HistoryOK(ids, h) && n.role == Follower
    requires Taking(h, n, ae) && AppendOK(h, src, ae)
    requires Extends(h, Acked(h, n, ae.prevLogIndex + |ae.entries|), n.id, n.term)
    ensures NodeOK(ids, Acked(h, n, ae.prevLogIndex + |ae.entries|), Accepted(n, ae))
  {
    hide HistoryOK, Extends, Rooted, AcksOK, AppliedOK, TookOver, AppendOK, Splice;
    var h', n' := Acked(h, n, ae.prevLogIndex + |ae.entries|), Accepted(n, ae);
    AcceptedRooted(ids, h, n, src, ae);
    AcceptedApplied(ids, h, n, ae);
    AppliedGrows(h, h', n.id, n.term, n', n');
    AcceptedAcks(ids, h, n, src, ae);
  }

  // The leader's commit index, carried with the entries, is safe to adopt.
  lemma AdoptCommit(ids: set<NodeId>, h: History, n: Node, src: NodeId, ae: Body)
    requires NodeOK(ids, h, n) && n.role == Follower
    requires ae.AppendEntries? && AppendOK(h, src, ae) && n.term == ae.term
    requires var end := ae.prevLogIndex + |ae.entries|; end <= |n.log| && n.log[..end] == h.logs[ae.term][..end]
    ensures NodeOK(ids, h, FollowCommit(n, ae))
  {
    if ae.leaderCommit > n.commitIndex {
      var c, end := ae.leaderCommit, ae.prevLogIndex + |ae.entries|;
      var m := n.(commitIndex := c);
      hide Rooted, Committed, AcksOK, VotesOK;
      assert n.log[..c] == n.log[..end][..c] == h.logs[ae.term][..end][..c] == h.logs[ae.term][..c];
      assert AppliedOK(h, m);
      assert NodeOK(ids, h, m);
      ApplyKeeps(ids, h, m);
    }
  }
}
