# ImmuStore in Dafny

A model of ImmuStore's four cores and proofs about them, in Dafny 4.11. `dafny verify dfyconfig.toml`
checks the whole project.

**Raft** (`Raft*.dfy`). `RaftNode` and `Log` are the objects of `imustore/raft/node.py` and
`log.py`; each handler is proved equal to a function on node values (`RaftSpec`). `RaftCluster` puts nodes
and a set of sent envelopes that only grows into a transition system: a message may be delivered any
number of times, late, out of order or never, any timeout may fire at any time, and a node may restart
with nothing but its log, term, vote and applied entries. The invariant (`RaftInvariant`) relates a state to a history of votes, leaders,
acknowledgements and commits; the history appears in proofs only. Every theorem in `RaftTheorems` is about
all runs of any cluster, of odd or even size. `RaftClients` says where commands come from; `RaftElections` and
`RaftProgress` say what a run can do: from every reachable state any majority can elect a leader and apply a new command.

**B+ tree** (`BPlus*.dfy`, `SortedItems`, `KeyOrder`). The copy-on-write tree with splits, borrowing,
merging and root collapse, for every order from 3 up. The invariant has separators strictly above their
lower bound. Meaning is given by sorted lists of items and by finite maps; the binary tree (`BinaryTree`) refines
the same map. A key is a real number, its rank: the trees use only the order of keys, and `KeyOrder.RankOrder`
embeds the source's string order in the reals.

**Storage** (`FileFormat`, `FileLayout`, `Persist`, `StoreOnce`, `PersistTree`, `CodecExists`, `Recovery`, `Disk`, `StorageLayer`). The file is
bytes: two meta slots and records; `FileLayout` states the documented format by offsets, apart from the code that writes
it. `Persist` stores and follows trees, and `StoreOnce` says how much a commit writes and when it fits. `Recovery` is the storage
simulation: one writer sets, deletes and commits, and may lose power anywhere. It covers the simulated disk's all-or-nothing
flush and a harsher disk that may have kept any part of what was not flushed, with one assumption on checksums: a meta
slot torn by a crash reads as it was, as it should be, or not at all.

**Transactions and collections** (`Transaction*.dfy`, `Serializability`, `DurableTransactions`, `IndexKeys`, `Collection*.dfy`). Optimistic
transactions over an index, interleaved in any way, their commit down to the disk, and the document collection with secondary indexes, expiry and queries.

**Wire format** (`Resp*.dfy`). Printer and readers of RESP2. `RespGrammar` and `RespLines` state the protocol in its own
characters, apart from the printer and the readers.

Outside the model and given as parameters: the checksum (any function to 32 bits), the encoder of node
records (any encoder that its decoder undoes where keys are strings; `CodecExists` shows that there are
such encoders), the token of a document value (any function to text without NUL), which bytes are UTF-8 (any
predicate) and the time of each collection operation.

Where a law fails of the code, the model keeps the code and says exactly when the law holds:

- Validation compares the written keys only, so transactions are not always serializable.
  `Serializability.Serializable` is the theorem under a condition on each transaction, `Serializability.OrderlyIsExact`
  says that no weaker condition on a transaction will do, and `Serializability.WriteSkew` is the familiar failure.
- The collection's comments say that an index never changes a result; for a query that asks for null it can.
  `CollectionQuery.TransparentIff` and `CollectionQuery.EqualityQueryIff` say for which queries it never does, and
  `CollectionQuery.NullIsNotTransparent` is a run that fails. A collection opened with an index over documents stored
  without it misses them: `CollectionQuery.OpeningIsTransparentIff`.
- A command with an empty key is counted as applied and never stored: `RaftStateMachine.StoreIsFoldIff` and
  `RaftStateMachine.EmptyKeyIsSkipped`.
- A simple string or error with CRLF inside, or bytes that are not UTF-8, do not survive the wire: `Resp.ReplyRoundTripIff`.

## Model

| member | source | states |
|---|---|---|
| RaftTheorems.StateMachinesAgree | imustore/raft/node.py:260-264 | in every run, what two nodes have applied at any two moments is one list and a prefix of it, so no index is ever applied with two commands |
| RaftTheorems.CommittedNeverDiverge | imustore/raft/node.py:195-264 | in every run, of two committed prefixes, on any nodes and at any moments, one is a prefix of the other, and no commit index exceeds its log |
| RaftTheorems.CommittedInLaterLeaders | imustore/raft/node.py:164-181 | Leader Completeness: what a node of some term has committed is a prefix of the log of every leader of every later term |
| RaftInvariant.LeaderCompleteness | imustore/raft/node.py:250-258 | the same on the history: what a leader committed by counting replicas in its own term is below the base of every later election; by induction on the term, with the voting restriction and quorum intersection |
| RaftTheorems.LogMatching | imustore/raft/log.py:54-68 | Log Matching: two logs, at any moments, that agree on the term at an index are identical up to it |
| RaftTheorems.LogMatchesMessage | imustore/raft/node.py:206-212 | a log that agrees with any sent AppendEntries on the term at an index holds the entries of the message up to there |
| RaftTheorems.ElectionSafety | imustore/raft/node.py:123-192 | at most one node is ever leader in a term, over whole runs with restarts |
| RaftTheorems.ActSaves | imustore/raft/node.py:276-277 | every step of every node ends with the saved term and vote equal to those in memory |
| RaftTheorems.VotesSurviveRestart | imustore/raft/simulation.py:93-96 | a restart loses neither term nor vote |
| RaftTheorems.CommittedForever | imustore/raft/log.py:61-68 | nothing a node has committed or applied is ever truncated or changed on it, across restarts |
| RaftTheorems.CommitNeverMovesBack | imustore/raft/node.py:214-215 | no step but a restart lowers a commit index |
| RaftTheorems.ActKeepsCommitted | imustore/raft/node.py:195-218 | one step keeps every committed prefix in the log, the term from falling, and the applied list from changing |
| RaftTheorems.SentCommitsAreCovered | imustore/raft/node.py:239-248 | every AppendEntries ever sent has its commit index within the entries it carries, which is what makes taking the minimum safe |
| RaftTheorems.AppliedExactlyOnce | imustore/raft/node.py:260-264 | across crashes a node has applied exactly the indices 1 to n, in order, each with the command of its log |
| RaftTheorems.RunExplained | imustore/raft/simulation.py:54-96 | every run has a history that only grows and satisfies the invariant at every state |
| RaftHandlers.ActKeepsInv | imustore/raft/node.py:81-116 | every enabled action of every node keeps the cluster invariant |
| RaftInvariant.CommittedAgree | imustore/raft/node.py:250-258 | two prefixes committed under one history are comparable |
| RaftInvariant.CommittedInLeader | imustore/raft/node.py:164-181 | a committed prefix is in the log of the leader of every term from then on |
| RaftInvariant.SameTermSamePrefix | imustore/raft/log.py:54-68 | logs built from leaders' logs that agree on a term at an index agree up to it |
| RaftInvariant.QuorumsMeet | imustore/raft/node.py:267-268 | two majorities of one cluster share a node, for even sizes too |
| RaftRepair.Exchange | imustore/raft/node.py:206-248 | one append and its answer: accepted, and the follower has the leader's whole log, or refused, and the next index falls, at once to the end of the follower's log or further, and stays positive |
| RaftRepair.RepairEnds | imustore/raft/node.py:220-233 | backing off ends within next-index exchanges, and within two more than the follower has entries, with the leader's log a prefix of the follower's |
| RaftRepair.SpliceReachesEnd | imustore/raft/log.py:54-68 | splicing after a common prefix, into a log that matches, leaves the sender's whole log in front |
| RaftRepair.ReachableLogsMatch | imustore/raft/node.py:206-212 | the matching that repair needs holds of any two nodes in every reachable state |
| RaftRepair.RepairEndsInEveryState | imustore/raft/node.py:206-248 | so in every reachable state repair between any leader and any node of no later term ends with the leader's log in front, within as many exchanges |
| RaftSpec.CommitTarget | imustore/raft/node.py:250-258 | the highest index above the commit index that is of the current term and on a majority, or the commit index if there is none |
| RaftLog.MatchLength | imustore/raft/log.py:60-68 | the number of leading entries whose terms already agree |
| RaftLog.Log.AppendFrom | imustore/raft/log.py:54-68 | the loop leaves the log as it is if all entries match, else cuts it at the first conflict and appends the rest |
| RaftNode.RaftNode.DoBecomeCandidate | imustore/raft/node.py:123-140 | the next term with the own vote, both saved before a request leaves; leader at once in a cluster of one, else candidate |
| RaftNode.RaftNode.DoBecomeLeader | imustore/raft/node.py:142-153 | leader of its term, with a no-op of that term at the end of the old log, next indices just past the old log and match indices 0 for every peer: the step the safety theorems are about |
| RaftNode.RaftNode.DoBecomeFollower | imustore/raft/node.py:155-162 | vote forgotten only with a newer term, both saved: the step the safety theorems are about |
| RaftNode.RaftNode.HandleRequestVote | imustore/raft/node.py:164-181 | one answer: a grant if and only if the request's term is the voter's or later, the vote of that term is free or the candidate's, and the candidate's log, whatever log it is, is not behind the voter's; the vote is saved before the answer leaves |
| RaftNode.RaftNode.HandleRequestVoteReply | imustore/raft/node.py:183-192 | votes counted as a set, newer terms end the candidacy, stale answers change nothing: the step the safety theorems are about |
| RaftNode.RaftNode.HandleAppendEntries | imustore/raft/node.py:195-218 | stale leaders and gaps refused without touching the log, else the entries spliced and saved before the answer leaves: the step the safety theorems are about |
| RaftNode.RaftNode.HandleAppendEntriesReply | imustore/raft/node.py:220-233 | success records the match and may commit, refusal backs off and retries, stale answers change nothing: the step the safety theorems are about |
| RaftNode.RaftNode.DoBroadcastAppend | imustore/raft/node.py:235-237 | the loop sends one append to each peer in order |
| RaftNode.RaftNode.DoSendAppendTo | imustore/raft/node.py:239-248 | the append sent carries the entries from the peer's next index |
| RaftNode.RaftNode.CountReplicas | imustore/raft/node.py:254 | the loop counts this node and the peers known to hold the index |
| RaftNode.RaftNode.DoAdvanceCommit | imustore/raft/node.py:250-258 | the downward loop commits the target of `CommitTarget` and applies up to it |
| RaftNode.RaftNode.DoApply | imustore/raft/node.py:260-264 | the loop applies each entry above the last applied one once, in order, up to the commit index |
| RaftNode.RaftNode.Step | imustore/raft/node.py:94-105 | delivery of any message is the model's delivery |
| RaftNode.RaftNode.DoPropose | imustore/raft/node.py:107-116 | refused unless leader, else the log is the old log and the command under the current term, and one append goes to each peer in order, ending with that entry where the peer's next index is within the log |
| RaftClients.WriteIsLoggedAndSent | imustore/raft/node.py:107-116 | a client's write on a leader of any reachable state puts its command, under the leader's term, at the end of the leader's log and at the end of an append to every other node |
| RaftClients.LoggedWasWritten | imustore/raft/node.py:107-116 | in every run, every command in a log but a leader's no-op is the command of an earlier client's write |
| RaftClients.SentWasWritten | imustore/raft/node.py:239-248 | so is every command in an append ever sent |
| RaftClients.AppliedWasWritten | imustore/raft/node.py:260-264 | so is every command a state machine is given |
| RaftClients.ActWithin | imustore/raft/node.py:81-116 | no action brings a command into logs or messages but the no-op and the command of a write |
| RaftElections.VoteGrantedIff | imustore/raft/node.py:164-181 | a request gets one answer, a grant if and only if its term is no earlier, the vote is free or the candidate's, and the log it describes is not behind; a grant is saved, a refusal gives no vote |
| RaftElections.MajorityIsMoreThanHalf | imustore/raft/node.py:267-268 | a majority is more than half of the cluster, for odd and even sizes |
| RaftElections.TimeoutAsksEveryPeer | imustore/raft/node.py:123-140 | a timeout opens the next term with the own vote saved, and asks every peer with the index and term of the last entry |
| RaftElections.StandingInEveryState | imustore/raft/node.py:123-192 | in every reachable state a candidate has its own vote and no majority and has asked every peer, and every node has applied all it knows to be committed |
| RaftElections.ElectionIsWon | imustore/raft/node.py:164-192 | from every reachable state, a candidate whose log is not behind those of so many free voters of no later term that they and it are more than half becomes leader of its term once its requests and their answers are delivered |
| RaftProgress.LeaderCommitsWhatMajorityHolds | imustore/raft/node.py:250-258 | after counting, the commit index is the last entry of the own term that more than half are known to hold, or where it was, and all up to it is applied |
| RaftProgress.FollowerCommitsWhatLeaderSays | imustore/raft/node.py:206-218 | an append that is taken brings the commit index up to what the leader said, and all up to it is applied |
| RaftProgress.CatchUp | imustore/raft/node.py:206-248 | from every reachable state the exchange between a leader and a node of no later term can be run to its end: the node has the whole log and the leader knows it, and no other node has changed |
| RaftProgress.WriteCanBeApplied | imustore/raft/node.py:107-116 | from every reachable state a leader and any nodes of no later term that make a majority with it can log, commit and all apply a given command at the next index, with no step of any other node |
| RaftProgress.MajorityCanAlwaysWrite | imustore/raft/node.py:81-116 | from every reachable state of every cluster any majority, without the others, can elect one of its own and all apply a given command at one index |
| RaftStateMachine.OutcomeIsLastWrite | imustore/raft/statemachine.py:56-64 | a key has the value that was last set, if nothing has deleted it since, and no other |
| RaftStateMachine.ReplicasConverge | imustore/raft/statemachine.py:56-64 | nodes that have applied as far have the same key-value state |
| RaftStateMachine.Recorder.Kv | imustore/raft/statemachine.py:56-64 | the loop is the fold of the applied commands |
| RaftStateMachine.KVStateMachine.Apply | imustore/raft/statemachine.py:32-44 | an empty key is refused and stages nothing; otherwise a crash at any write leaves the durable store as it was or with command and index together |
| RaftStateMachine.KVStateMachine.Resume | imustore/raft/statemachine.py:25-44 | applying from the stored index on, through any crashes and refusals, the durable store is at every moment what the first k commands make it, k is the stored index if none is refused, and every attempt without a crash gets one command further |
| RaftStateMachine.StoreIsOutcome | imustore/raft/statemachine.py:32-64 | the store after some commands holds the index of the last one taken, and apart from it the fold of the commands without the empty key |
| RaftStateMachine.StoreIsFoldIff | imustore/raft/statemachine.py:32-64 | the store is the fold of the commands it was given if and only if that fold has no empty key |
| RaftStateMachine.EmptyKeyIsSkipped | imustore/raft/node.py:260-264 | after any commands, one that sets the empty key is passed over for good by the next one taken: the stored index covers it and the store lacks it |
| KeyOrder.RankOrder | imustore/bplus_tree.py:193-198 | ranks compare exactly as strings do, so trees of ranks stand for trees of strings |
| BPlusTree.BisectLeft | imustore/bplus_tree.py:193 | the insertion point: all keys before it are smaller and none from it on |
| BPlusTree.BisectRight | imustore/bplus_tree.py:207 | the child that covers a key: separators at most the key before it, the next above it |
| BPlusInsert.InsertRecOK | imustore/bplus_tree.py:189-224 | inserting below any node, split or not, keeps order, strict bounds, height and occupancy, is one update of the listing, and reports whether the key is new |
| BPlusTheorems.InsertRootOK | imustore/bplus_tree.py:179-187 | the same for the whole tree, root split included |
| BPlusDelete.RebalanceItems | imustore/bplus_tree.py:260-315 | repairing a child, whichever way, moves items and loses none |
| BPlusDelete.RebalanceOK | imustore/bplus_tree.py:260-315 | an under-full child always has a sibling to turn to, and the repaired node is well formed with at most one separator less |
| BPlusDelete.BorrowLeftOK | imustore/bplus_tree.py:276-288 | borrowing from the left gives two well-filled neighbours around a valid separator |
| BPlusDelete.BorrowRightOK | imustore/bplus_tree.py:290-302 | borrowing from the right gives two well-filled neighbours around a valid separator |
| BPlusDelete.MergeOK | imustore/bplus_tree.py:304-315 | two neighbours that cannot spare merge into one that does not overflow |
| BPlusDelete.DeleteRecOK | imustore/bplus_tree.py:238-258 | deleting below any node fails exactly on absent keys, and else removes that one item and keeps everything but minimum occupancy at the top |
| BPlusTheorems.DeleteRootOK | imustore/bplus_tree.py:227-236 | deletion raises exactly on absent keys and else removes that item from a tree that is well formed again, root collapse included |
| BPlusTheorems.StepRefines | imustore/bplus_tree.py:179-258 | one set or delete is the same step of a plain map, with the count the size of the map |
| BPlusTheorems.Run | imustore/bplus_tree.py:179-258 | after any sequence of operations the tree is well formed and tree, listing and count agree with the map |
| BPlusScan.RangeIsSelect | imustore/bplus_tree.py:158-176 | on any well-formed node and any bounds the pruning scan is the listing filtered |
| BPlusScan.SelectMeaning | imustore/bplus_tree.py:158-176 | filtering keeps exactly the items in range, in strictly increasing order |
| BPlusScan.ScanOfRun | imustore/bplus_tree.py:158-176 | both, for every reachable tree |
| BPlusScan.HeightIsLogarithmic | imustore/bplus_tree.py:318-326 | a reachable tree of height h from 2 up holds at least 2m(m+1)^(h-2) keys, m half the order |
| BPlusScan.ManyKeys | imustore/bplus_tree.py:256-258 | a node of height h that is not the root holds at least m(m+1)^(h-1) keys |
| BPlusAudit.CheckIsAudited | imustore/bplus_tree.py:339-379 | the recursive check reports no error and height h exactly when the checked conditions hold of every node at uniform depth and every value loads |
| BPlusAudit.GoodRootPasses | imustore/bplus_tree.py:381-386 | on a well-formed tree the audit errs exactly when the count given is wrong or a value does not load |
| BPlusAudit.AuditIff | imustore/bplus_tree.py:328-386 | audit is exact: no error if and only if the tree is well formed (or a bare empty leaf), every value loads and the count is the number of keys |
| BPlusAudit.AuditedIsWF | imustore/bplus_tree.py:339-379 | what the check accepts has separators strictly above their lower bound, one step more than it looks for |
| BPlusIndex.Index.Set | imustore/bplus_tree.py:179-187 | the object's map is updated at the key and it stays valid |
| BPlusIndex.Index.Delete | imustore/bplus_tree.py:227-236 | false exactly on an absent key, leaving root and count untouched; else the key is gone |
| BPlusIndex.Index.Get | imustore/bplus_tree.py:138-146 | the descending loop finds what the map holds, or that it holds nothing |
| BPlusIndex.Index.CountHeight | imustore/bplus_tree.py:318-326 | the loop down the leftmost path counts the height |
| BPlusIndex.Index.Length | imustore/bplus_tree.py:121-124 | the separately kept count is the size of the map |
| SortedItems.SameMapSameList | imustore/bplus_tree.py:148-156 | two sorted listings of one map are the same list |
| BinaryTree.InsertOK | imustore/binary_tree.py:94-103 | insertion is one update of the listing and keeps order and cached lengths |
| BinaryTree.DeleteOK | imustore/binary_tree.py:105-129 | deletion fails exactly on absent keys and else removes that item, by successor if need be, keeping order and cached lengths |
| BinaryTree.PopMinOK | imustore/binary_tree.py:124-129 | the popped entry is the first of the listing and the rest is the rest |
| BinaryTree.RangeOK | imustore/binary_tree.py:138-146 | the scan is the listing filtered |
| BinaryTree.Get | imustore/binary_tree.py:84-92 | the loop finds what the listing holds |
| BinaryTree.LengthIsCount | imustore/binary_tree.py:69-82 | a cached length is the number of items |
| BinaryTree.RunIsModel | imustore/binary_tree.py:94-129 | after any operations the tree is ordered, its lengths are right and it stands for the same map as the B+ tree |
| BinaryTree.EnginesAgree | imustore/binary_tree.py:66-136 | after any operations the two engines list the same items and report the same length |
| FileFormat.UnpackPack | imustore/physical.py:46-53 | a big-endian number reads back if it fits |
| FileFormat.ParseMetaBlock | imustore/physical.py:126-142 | a meta block parses to the meta it was made from |
| FileFormat.SlotReadsBack | imustore/physical.py:151-164 | a written slot reads back, whatever was in the file |
| FileFormat.WriteSlotFrame | imustore/physical.py:151-164 | writing one slot leaves the other, the records and the length alone |
| FileFormat.RecordReadsBack | imustore/physical.py:231-255 | an appended record reads back |
| FileFormat.RecordFrame | imustore/physical.py:242-255 | a readable record reads the same in any file that extends the records |
| FileLayout.PackIsBigEndian | imustore/physical.py:46-53 | a number that fits is written by place value, most significant byte first |
| FileLayout.SlotWritten | docs/storage-format.md:8-20 | a slot is 4096 bytes: the letters IMMU, version 2, transaction, root, key count and data length at their offsets, the checksum of the first 40 bytes, zeros |
| FileLayout.SlotReadIff | imustore/physical.py:126-142 | a slot is found with some numbers if and only if the file is long enough and the 44 bytes at 4096 times its index have that layout with a right checksum |
| FileLayout.BestMetaIff | imustore/physical.py:144-149 | the slot gone by is the found one of the highest transaction, slot 0 of equals; there is none if neither is found or either is of another version |
| FileLayout.RecordReadIff | docs/storage-format.md:35-41 | a record is read if and only if length, checksum and payload lie there whole and agree |
| FileLayout.WrongChecksumIsCorrupt | imustore/physical.py:242-255 | a record whose stored checksum is not that of its payload gives an error |
| FileLayout.RecordWritten | imustore/physical.py:231-240 | an appended record has that layout |
| FileLayout.GapsAreZero | imustore/simdisk.py:81-97 | writing past the end and truncating to more fill with zeros |
| StoreOnce.SaveOnce | imustore/logical.py:24-27 | storing writes exactly one record for each value and node without an address, after all the file held, and leaves every stored part as it was |
| StoreOnce.SaveFits | imustore/physical.py:231-240 | storing succeeds whenever each part fits a record and the file stays below 2^64 bytes were every new record of the largest size |
| StoreOnce.CommitFits | imustore/physical.py:210-228 | then the commit of a reachable state succeeds, with the next transaction's number, the other slot, the number of keys and the length of the file in its meta block |
| StoreOnce.OversizedFails | imustore/physical.py:231-240 | a value of 4 GiB or more that is not stored yet makes every commit fail |
| Persist.SaveOK | imustore/bplus_tree.py:66-84 | storing a tree only appends, and every stored node's record names the addresses of parts that lie before it |
| Persist.LoadIffBacked | imustore/logical.py:19-22 | an address gives a tree exactly when every address in that tree is right |
| Persist.SaveLoad | imustore/logical.py:24-27 | a stored tree comes back exactly, addresses included, it differs from the tree in memory in addresses only, and every tree readable before is readable still |
| Persist.LoadFrame | imustore/logical.py:19-22 | an address goes on giving the same tree in every extended file |
| CodecExists.LosslessExists | imustore/bplus_tree.py:70-97 | an encoder of node records that its decoder undoes exists, so the storage theorems are about something |
| PersistTree.AlikeRoot | imustore/bplus_tree.py:86-97 | addresses matter neither to the shape nor to the contents of a tree |
| PersistTree.StepBacked | imustore/bplus_tree.py:127-131 | updates share stored nodes with right addresses: every set and delete keeps that |
| PersistTree.AuditOfRun | imustore/bplus_tree.py:328-386 | audit reports no error on the tree any operations build in memory |
| PersistTree.StepRanked | imustore/bplus_tree.py:179-258 | updates bring no keys into a tree but the strings they are given |
| Recovery.NeverFails | imustore/simulation.py:57-127 | every run of sets, deletes, commits, crashes and slot damage passes every check of the simulation and leaves the invariant |
| Recovery.CrashRecovers | imustore/simulation.py:82-118 | after any run, what a crash leaves opens, audits clean, and holds the last commit, the one in flight if its slot reads as new, or the one before if the newest slot was damaged |
| Recovery.AuditIsClean | imustore/bplus_tree.py:328-386 | at every state of every run, with trees read back from the file and updates staged on them, audit reports no error, the values it follows through the file included |
| Recovery.OpenOK | imustore/physical.py:173-195 | opening goes by the valid slot of the highest id, gives the tree and map of that commit and cuts the file where it ended |
| Recovery.LostOK | imustore/physical.py:210-216 | power lost before the first flush returns, with any tail in the file: the last commit |
| Recovery.TornOK | imustore/physical.py:217-228 | power lost between the flushes: the new commit if its slot reads, else the last |
| Recovery.CorruptedOK | imustore/simulation.py:120-127 | one of two valid slots damaged: the last commit or the one before, by which slot it was, from a state that works on |
| Recovery.CommitOK | imustore/physical.py:210-228 | a commit publishes the model with the previous commit intact in the other slot |
| Recovery.PrepareOK | imustore/bplus_tree.py:116-119 | before publishing, a commit has only appended, and what it appended is the model |
| Recovery.TornHolds | imustore/physical.py:217-228 | any file between or after the flushes holds the old commit, the new one, and which of them is best by one slot |
| Recovery.InitSlots | imustore/physical.py:166-171 | a file too short gets two readable slots of the empty tree |
| Recovery.SnapshotsStay | imustore/interface.py:125-148 | short of a damaged slot, a root readable at some point of a run reads as the same tree ever after, through updates, commits and crashes |
| Recovery.FlipIsCorruption | imustore/simulation.py:120-127 | inverting the stored checksum of a readable slot makes it unreadable and changes nothing else |
| Recovery.RecoveryRepeats | imustore/physical.py:188-193 | recovery interrupted and begun again ends in the same state |
| Disk.SimDisk.Write | imustore/simdisk.py:81-88 | overwrites at the position, extending with zeros |
| Disk.SimDisk.Read | imustore/simdisk.py:72-79 | the bytes from the position on, as many as there are |
| Disk.SimDisk.Truncate | imustore/simdisk.py:90-97 | cut or extended with zeros to the size |
| Disk.SimDisk.Flush | imustore/simdisk.py:99-104 | all that is live becomes durable, except at the armed flush, which changes nothing durable |
| StorageLayer.Storage.ReadSlot | imustore/physical.py:126-142 | reading the slot of the live bytes |
| StorageLayer.Storage.ReadBestMeta | imustore/physical.py:144-149 | the loop picks the valid slot of the highest id, the first of equals, and fails on an unknown version or on none |
| StorageLayer.Storage.WriteSlot | imustore/physical.py:151-164 | writes the slot, or fails on a field that does not fit |
| StorageLayer.Storage.InitMeta | imustore/physical.py:166-171 | both slots written and durable, unless its one flush is the armed one, and then the durable bytes are as they were |
| StorageLayer.Storage.EnsureMeta | imustore/physical.py:173-195 | initialises or recovers exactly as the model opens a file; it crashes if and only if there is something to write and the next flush is the armed one, and unless it succeeds the durable bytes are as they were |
| StorageLayer.Storage.CommitRoot | imustore/physical.py:210-228 | done if and only if the numbers fit and neither of two flushes is the armed one, with the new slot durable; crashed if and only if the armed flush is the first, leaving the old durable bytes, or the second of a commit that fits, leaving the records without the slot |
| StorageLayer.Storage.Write | imustore/physical.py:231-240 | appends one record and gives its address |
| StorageLayer.Storage.Read | imustore/physical.py:242-255 | the payload, or failure on a missing, cut or damaged record |
| StorageLayer.Storage.Store | imustore/logical.py:24-27 | children before parents, nothing twice: the file and the tree of the model |
| StorageLayer.Storage.StoreAll | imustore/bplus_tree.py:58-60 | the loop stores children in order |
| StorageLayer.Storage.StoreValues | imustore/bplus_tree.py:48-50 | the loop stores values in order |
| StorageLayer.Storage.Commit | imustore/bplus_tree.py:116-119 | done if and only if the model can prepare the commit and neither flush is the armed one, with the model's file durable; else the durable file is the one before or that with the records and no slot, by which flush it was, and after a crash one of the images the recovery theorem covers |
| Serializability.Serializable | imustore/interface.py:232-300 | for any interleaving in which each committed transaction writes what it reads or leaves its snapshot as it found it, all of them in one serial order give all their answers and the final state; the order keeps real time, those that leave their snapshot alone, readers among them, stand where it is the state, and the others keep commit order |
| Serializability.OrderlyIsExact | imustore/interface.py:292-300 | that condition is exact: a transaction leaves every run of orderly ones serializable if and only if it writes what it reads or leaves its snapshot as it found it |
| Serializability.DisorderlyFails | imustore/interface.py:267-300 | otherwise, on its own snapshot, one orderly transaction beside it is enough: both commit and neither order explains them |
| Serializability.ReadersAreOrderly | imustore/interface.py:267-270 | committed transactions without writes are among those that leave their snapshot alone |
| Serializability.InCommitOrder | imustore/interface.py:267-290 | leaving out any transactions that leave their snapshot alone, such as all readers, the others, which write what they read, give the final state in commit order |
| Serializability.AllInCommitOrder | imustore/interface.py:267-290 | if all of them write what they read, the commit order of all is the serial order |
| Transactions.SnapshotWasCurrent | imustore/interface.py:223-226 | a transaction's snapshot is the database of some earlier point of the run |
| Transactions.ValidationIsEnoughIff | imustore/interface.py:292-300 | for one commit: passing validation guarantees that a transaction could have run on the current state if and only if every key that decided an answer is among those it writes |
| Transactions.CommitReplays | imustore/interface.py:267-290 | one commit extends the serial order by one transaction, and a conflict changes nothing |
| Transactions.ReplayElsewhere | imustore/interface.py:292-300 | a trace gives the same answers on any database with the same values at the keys that decided them, however they came about |
| Transactions.ReadersSeeTheirSnapshot | imustore/mvcc.py:39-57 | all answers of a transaction without writes come from the database as it was at one point of the run |
| Transactions.RunFaithful | imustore/interface.py:232-260 | in every run, what an open or committed transaction answered and buffered is what its operations do on its snapshot |
| Serializability.WriteSkew | imustore/interface.py:292-300 | two transactions that read two keys and write one each both commit, on any database, and no serial order explains them |
| Transactions.Transaction.Get | imustore/interface.py:232-239 | own writes first, tombstones hide, else the snapshot |
| Transactions.Transaction.Set | imustore/interface.py:252-254 | one key of the overlay |
| Transactions.Transaction.Delete | imustore/interface.py:256-260 | a tombstone if the key is visible, else KeyError and no change |
| Transactions.Transaction.CheckConflicts | imustore/interface.py:292-300 | the loop succeeds exactly if all written keys have the values of the snapshot |
| Transactions.Transaction.Commit | imustore/interface.py:267-290 | without writes nothing, on conflict nothing, else the tree holds the overlay over what it held, by the tree operations of the overlay; the transaction is over |
| Transactions.Transaction.Apply | imustore/interface.py:277-284 | the loop over the overlay, deletions of absent keys included, gives the overlaid map |
| DurableTransactions.CommitDurably | imustore/interface.py:267-290 | down to the disk: without an armed crash a commit that passes validation is durable if and only if its file can be prepared; what is reported durable is what the file and the tree hold, a conflict changes nothing, and after a power loss or a failure to encode the durable file opens as the map before |
| DurableTransactions.Publish | imustore/bplus_tree.py:116-119 | durable if and only if the file can be prepared and neither flush is the armed one, with a handle whose durable file holds the tree; else the map before on disk |
| DurableTransactions.NewIsSettled | imustore/physical.py:166-171 | a database just initialised is one that durable commits start from |
| DurableTransactions.CrashIsAtomic | imustore/physical.py:210-228 | on a disk that may keep part of what was not flushed, what a crashed commit leaves opens as the map before or the map after |
| DurableTransactions.StageOK | imustore/interface.py:277-284 | staging any operations keeps the durable file and what it stands for |
| TransactionTraces.TraceIsMade | imustore/interface.py:232-260 | in every run an open transaction has recorded exactly the calls made on it since it began |
| TransactionTraces.LogIsMade | imustore/interface.py:267-290 | in every run the committed transactions are, in commit order, the calls made on a handle up to its commit, or a direct write |
| TransactionTraces.CommitTakesEffectIff | imustore/interface.py:267-300 | a commit takes effect if and only if every key it writes is as it was at its beginning, changing those keys only; else nothing changes |
| IndexKeys.IndexKeyInjective | imustore/collection.py:43-44 | an index key determines field, token and document |
| IndexKeys.SeparatorsCollide | imustore/collection.py:43-44 | with a NUL in a field name it does not: such a name shares its keys with another field, token and document |
| IndexKeys.ScanFinds | imustore/collection.py:47-48 | a scan prefix matches exactly the entries of its field and token |
| IndexKeys.KindsApart | imustore/collection.py:25-59 | documents, entries and expiry times never share a key |
| CollectionSpec.SetDocOK | imustore/collection.py:100-115 | set keeps entries in step with documents and changes what readers see at that key only, to the document or, if it expires at once, to nothing |
| CollectionSpec.DeleteDocOK | imustore/collection.py:117-136 | delete keeps entries in step and removes that key only |
| CollectionSpec.BackfillOK | imustore/collection.py:138-150 | a new index covers every live document and changes nothing readers see |
| CollectionSpec.SweepOK | imustore/collection.py:152-165 | sweeping removes what has expired and changes nothing readers see |
| CollectionSpec.TimePasses | imustore/collection.py:95-97 | time alone breaks nothing |
| CollectionQuery.IndexFinds | imustore/collection.py:198-217 | index intersection finds exactly the matches that carry every indexed field asked for |
| CollectionQuery.IndexIsTransparentIff | imustore/collection.py:198-233 | in a given state ordered results with and without indexes are equal if and only if every match carries the indexed fields asked for |
| CollectionQuery.TransparentIff | imustore/collection.py:198-233 | for a given query, index and scan agree after every run with those indexes if and only if no document can match the query without the indexed fields it asks for |
| CollectionQuery.EqualityQueryIff | imustore/collection.py:178-217 | for a query of equalities that is the case if and only if it asks some field for two values or asks no indexed field to be null |
| CollectionQuery.AgreeIsSameList | imustore/collection.py:219-233 | finding the same keys and returning the same ordered list are one |
| CollectionQuery.OpeningIsTransparentIff | imustore/collection.py:63-66 | a collection opened with declared indexes over stored documents answers every query that asks none of them to be null as a scan does, if and only if no live document has a value in a declared field that was not indexed when it was stored |
| CollectionQuery.MissedDiffers | imustore/collection.py:63-66 | such a document is found by the scan for its value and missed by the index |
| CollectionQuery.UncarriedDiffers | imustore/collection.py:198-217 | a document that matches without such a field, stored alone, is found by the scan and not by the index |
| CollectionQuery.IndexIsTransparent | imustore/collection.py:198-233 | so they are equal after any mix of operations from an empty database, for queries that ask no indexed field to be null |
| CollectionQuery.NullIsNotTransparent | imustore/collection.py:210-217 | a document without the field answers a query for null on a scan only |
| CollectionQuery.NextOK | imustore/collection.py:100-165 | every operation keeps the invariant and is a plain map update to readers |
| CollectionModel.RunIsModel | imustore/collection.py:73-165 | after any run, what a reader sees at any time is what a plain map from keys to fields and deadline gives: set writes now plus ttl, delete and sweep remove, create_index does nothing |
| CollectionModel.NextItems | imustore/collection.py:100-165 | each operation is that operation of the plain map |
| CollectionModel.SetIsSeen | imustore/collection.py:95-115 | a document is seen at exactly the times before its deadline, and no other key is touched |
| CollectionModel.StoredNames | imustore/collection.py:25-52 | what a set with an indexed field and a ttl stores, and under which names |
| CollectionModel.FoundIffWanted | imustore/collection.py:198-233 | a query returns exactly the visible documents that have each value asked for and pass the filter; a field that is not there counts as null unless it is indexed |
| CollectionObject.Collection.Get | imustore/collection.py:73-78 | refused for an empty or reserved key, else the live document or nothing |
| CollectionObject.Collection.Set | imustore/collection.py:100-115 | refused for an empty or reserved key; else at every time the document is seen under that key if it has no ttl or the time is before now plus ttl, and is not seen otherwise, and every other key is seen as before |
| CollectionObject.Collection.Delete | imustore/collection.py:117-127 | refused for a bad or missing key, else at every time that key is not seen and every other is as before |
| CollectionObject.Collection.Unindex | imustore/collection.py:129-136 | the loop removes the entries of the indexed fields the document has |
| CollectionObject.Collection.CreateIndex | imustore/collection.py:138-150 | the loop over live documents in key order writes their entries, and changes nothing that is seen at any time |
| CollectionObject.Collection.Sweep | imustore/collection.py:152-165 | the loop over due keys removes exactly the documents past their deadline and returns their number |
| CollectionObject.Collection.All | imustore/collection.py:219-233 | in key order, exactly the visible documents that have each value asked for and pass the filter; a field that is not there counts as null unless it is indexed |
| CollectionObject.DueAreExpired | imustore/collection.py:152-159 | the keys a sweep collects are the documents that have expired |
| Resp.PipelineReadsBack | imustore/resp.py:59-103 | any concatenation of encoded commands is read as those commands and nothing more |
| Resp.CutPipeline | imustore/resp.py:68-103 | a pipeline cut at any byte is read as the commands that arrived in full and nothing of the next |
| Resp.WholeIsMost | imustore/resp.py:59-65 | those are the most commands whose bytes fit |
| Resp.CommandReadsBack | imustore/resp.py:59-103 | a command comes back, consuming its own bytes only, whatever bytes its arguments hold |
| Resp.ReplyRoundTripIff | imustore/resp.py:36-128 | a reply, nested to any depth, comes back consuming its own bytes if and only if its texts and payloads are UTF-8 and no simple string or error in it has a CRLF |
| Resp.LineReadsBack | imustore/resp.py:106-109 | a line comes back exactly when it has no CRLF inside |
| Resp.PrintIntParses | imustore/resp.py:46-47 | a printed integer parses to itself |
| RespGrammar.EncodeHasForm | imustore/resp.py:36-56 | every reply is printed in its RESP2 form: the characters of its kind, decimal numerals by place value, CRLF |
| RespGrammar.EncodeCommandHasForm | imustore/resp.py:59-65 | every command is printed as an array of bulk strings in that form |
| RespGrammar.CommandIsRead | imustore/resp.py:68-103 | whatever bytes have the form of a command are read as that command, and no further |
| RespGrammar.ReplyIsRead | imustore/resp.py:106-128 | whatever bytes have the form of a reply, of UTF-8 texts without CRLF in simple strings and errors, are read as that reply, and no further |
| RespGrammar.PrintNatIsNumeral | imustore/resp.py:46-50 | a number is printed as its decimal numeral without a leading zero |
| RespLines.ParseIntIff | imustore/resp.py:85 | a text is taken for an integer if and only if it is blanks around an optional sign and digits with single underscores between, worth their decimal value |
| RespLines.WordsIff | imustore/resp.py:82 | a line splits into some words if and only if it is those words with blanks between and around them |
| RespLines.JoinSplits | imustore/resp.py:82 | words joined by single spaces split into themselves |
| RespLines.InlineIsRead | imustore/resp.py:81-82 | a line that does not start with a star is a command of its words |
| RespLines.BlankLineIsSkipped | imustore/resp.py:70-79 | a blank line before a request changes nothing |
| RespLines.CountMatters | imustore/resp.py:84-89 | a count that is no integer is a protocol error, one that is not positive asks for nothing |
| RespLines.ArgumentMustBeBulk | imustore/resp.py:93-98 | a first argument that does not start with a dollar is a protocol error, one whose length is no integer or negative a value error |
| RespLines.ReplyMustBeKnown | imustore/resp.py:108-128 | a reply of no known kind is a protocol error, one whose number is no integer or whose length is below -1 a value error |
| RespStream.Stream.ReadCommand | imustore/resp.py:68-103 | the loop over blank lines and the argument loop read what the function reads |
| RespStream.Stream.ReadReply | imustore/resp.py:106-128 | the recursive reader reads what the function reads, decoding errors included |
| RespStream.EncodeCommand | imustore/resp.py:59-65 | the loop joins the parts of the request |

## Left out

- `imustore/raft/server.py`, `imustore/server.py`, `imustore/admin.py`, `imustore/tool.py`, `imustore/pubsub.py`, `imustore/metrics.py`: sockets, HTTP, command line and counters.
- `imustore/raft/wire.py`, pickle and JSON: library encoders, taken to be undone by their decoders.
- Raft timers and random numbers: any timeout may fire at any time, so what is said about progress is what a run can do, not what it must or how soon.
- Raft state on disk: taken to survive restarts, as in the cluster simulation.
- Several handles or processes on one file, `FileLock`, threads and the lock that a failed commit keeps: the model has one writer whose commits are atomic sections.
- A crash during the very first initialisation of a file, and `durability="none"`: no recovery is promised there.
- `count_records`: a walk over the record lengths for the statistics of `stats`; nothing that commits, recovers or reads a tree depends on it.
- `compact`: it rebuilds by inserting every item into a new file and replaces the old one, which is a matter of the operating system.
- The open-snapshot counter: it only guards `compact`.
- Snapshots over the binary engine: a snapshot always reads B+ tree nodes.
- `audit` of the binary tree, and the node and value counters of `audit`.
- RaftNode.RaftNode.DoApply: the function that takes a command does not raise. One that does, as the database on an empty key, also ends the handler before it saves and answers, which is a lost message to the rest of the cluster.
- CollectionQuery.OpeningIsTransparentIff: says what holds when the collection is opened; what later updates under changed indexes do to entries left from before is not followed.
- Transactions.Transaction.Commit: ends with the tree in memory; storing and publishing it is `DurableTransactions.CommitDurably`.
- DurableTransactions.CommitDurably: after a crash or a failure the handle is not used again, but opened anew.
- Recovery.NeverFails: a commit that raises `struct.error`, on a record of 4 GiB or a number beyond 64 bits, is not a step of a run.
- Persist.LoadIffBacked: following an address that does not lie before the record naming it is an error here and could go on forever in the source; no file the source wrote holds one.
- Serializability.Serializable: a direct write is committed at once; staged direct writes, which a commit by a transaction would drop, are outside the runs.
- CollectionQuery.IndexIsTransparent: field names hold no NUL, the clock does not run back, and the clock does not move within one operation.
- CollectionObject.Collection.Set: a document is always a mapping, so the TypeError for others has no counterpart; transactions of a collection do not conflict, since operations follow one another.
- Resp.ReplyRoundTripIff: a text is its encoded bytes, booleans are the integers they are printed as, and a line longer than the stream reader's limit is not refused.
