/** A Raft cluster as a transition system (`imustore/raft/simulation.py`).

    The network is the set of every envelope ever sent, and any of them may be delivered any
    number of times and in any order, or never: this covers loss, delay, reordering, duplication
    and every partition. A node that is down takes no step; rebooting rebuilds it from its saved
    term and vote, its log, and what its state machine has applied. */
module RaftCluster {
  import opened Prelude
  import opened RaftMessages
  import opened RaftSpec

  datatype Cluster = Cluster(nodes: map<NodeId, Node>, net: set<Envelope>)

  datatype Action =
    | Deliver(env: Envelope)
    | ElectionTimeout(id: NodeId)
    | HeartbeatTimeout(id: NodeId)
    | ClientWrite(id: NodeId, command: Command)
    | Reboot(id: NodeId)

  predicate NoDuplicates(s: seq<NodeId>) {
    forall i, j :: 0 <= i < j < |s| ==> s[i] != s[j]
  }

  function Members(s: seq<NodeId>): set<NodeId> {
    set p | p in s
  }

  predicate PeersAre(ids: set<NodeId>, n: Node) {
    NoDuplicates(n.peers) && Members(n.peers) == ids - {n.id}
  }

  ghost predicate Init(s: Cluster) {
    && s.net == {}
    && forall i :: i in s.nodes ==>
         && s.nodes[i] == Fresh(i, s.nodes[i].peers, 0, None, [], [])
         && PeersAre(s.nodes.Keys, s.nodes[i])
  }

  function Actor(a: Action): NodeId {
    if a.Deliver? then a.env.dst else a.id
  }

  // The bound on the commit index is what keeps the source's log accesses in range;
  // `RaftTheorems.AppliedExactlyOnce` shows that it never disables anything.
  predicate Enabled(s: Cluster, a: Action) {
    && Actor(a) in s.nodes
    && var n := s.nodes[Actor(a)];
    && n.commitIndex <= |n.log|
    && match a
       case Deliver(env) => env in s.net
       case ElectionTimeout(_) => n.role != Leader
       case HeartbeatTimeout(_) => n.role == Leader
       case ClientWrite(_, _) => n.role == Leader
       case Reboot(_) => true
  }

  function Acted(n: Node, a: Action): Node
    requires n.commitIndex <= |n.log|
  {
    match a
    case Deliver(env) => OnMessage(n, env.src, env.body)
    case ElectionTimeout(_) => BecomeCandidate(n)
    case HeartbeatTimeout(_) => BroadcastAppend(n)
    case ClientWrite(_, command) => Propose(n, command)
    case Reboot(_) => Restart(n)
  }

  // The cluster after node `n.id` has become `n` and its outbox has been sent.
  function Put(s: Cluster, n: Node): Cluster {
    Cluster(s.nodes[n.id := n], s.net + set e | e in n.outbox)
  }

  function Act(s: Cluster, a: Action): Cluster
    requires Enabled(s, a)
  {
    Put(s, Acted(s.nodes[Actor(a)].(outbox := []), a))
  }

  ghost predicate Step(s: Cluster, s': Cluster) {
    exists a :: Enabled(s, a) && s' == Act(s, a)
  }

  ghost predicate IsRun(run: seq<Cluster>) {
    && |run| > 0
    && Init(run[0])
    && forall k :: 0 <= k < |run| - 1 ==> Step(run[k], run[k + 1])
  }
}
