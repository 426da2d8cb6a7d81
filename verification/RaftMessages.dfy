/** The Raft RPC messages and log entries (`imustore/raft/messages.py`). */
module RaftMessages {
  type NodeId = nat

  datatype Command = Set(key: string, value: string) | Del(key: string) | Noop

  datatype LogEntry = LogEntry(term: nat, command: Command)

  // `prevLogTerm` is an integer because the source's `term_at` answers -1 past the end.
  datatype Body =
    | RequestVote(term: nat, candidateId: NodeId, lastLogIndex: nat, lastLogTerm: nat)
    | RequestVoteReply(term: nat, voteGranted: bool)
    | AppendEntries(term: nat, leaderId: NodeId, prevLogIndex: nat, prevLogTerm: int,
                    entries: seq<LogEntry>, leaderCommit: nat)
    | AppendEntriesReply(term: nat, success: bool, matchIndex: nat)

  datatype Envelope = Envelope(src: NodeId, dst: NodeId, body: Body)
}
