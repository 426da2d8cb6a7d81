/** The replicated log (`imustore/raft/log.py`): 1-indexed, index 0 is "before the first entry". */
module RaftLog {
  import opened Prelude
  import opened RaftMessages

  function LastTerm(log: seq<LogEntry>): nat {
    if |log| == 0 then 0 else log[|log| - 1].term
  }

  function TermAt(log: seq<LogEntry>, index: int): int {
    if index <= 0 then 0 else if index > |log| then -1 else log[index - 1].term
  }

  // The entries from position `index` (1-based) to the end.
  function EntriesFrom(log: seq<LogEntry>, index: nat): seq<LogEntry> {
    var from := Max(index - 1, 0);
    if from <= |log| then log[from..] else []
  }

  // How many of `entries`, laid down after `prev`, meet an existing entry of the same term
  // before the first that does not.
  function MatchLength(log: seq<LogEntry>, prev: nat, entries: seq<LogEntry>): (k: nat)
    ensures k <= |entries|
    ensures k > 0 ==> prev + k <= |log| && log[prev + k - 1].term == entries[k - 1].term
    ensures forall i :: 0 <= i < k ==> prev + i < |log| && log[prev + i].term == entries[i].term
    ensures k < |entries| && prev + k < |log| ==> log[prev + k].term != entries[k].term
    decreases |entries|
  {
    if |entries| == 0 || prev >= |log| || log[prev].term != entries[0].term then 0
    else
      var k := MatchLength(log, prev + 1, entries[1..]);
      assert forall i :: 0 < i < k + 1 ==> entries[i] == entries[1..][i - 1];
      k + 1
  }

  // What splicing `entries` in after `prev` leaves: nothing changes when they all match, and
  // otherwise everything from the first entry that does not match is replaced.
  function Splice(log: seq<LogEntry>, prev: nat, entries: seq<LogEntry>): (r: seq<LogEntry>)
    requires prev <= |log|
    ensures |r| >= prev + |entries|
  {
    var k := MatchLength(log, prev, entries);
    if k == |entries| then log else log[..prev + k] + entries[k..]
  }

  class Log {
    var entries: seq<LogEntry>
    var currentTerm: nat
    var votedFor: Option<NodeId>

    constructor ()
      ensures entries == [] && currentTerm == 0 && votedFor == None
    {
      entries, currentTerm, votedFor := [], 0, None;
    }

    method AppendNew(entry: LogEntry) returns (index: nat)
      modifies this`entries
      ensures entries == old(entries) + [entry] && index == |entries|
    {
      entries := entries + [entry];
      index := |entries|;
    }

    // The loop compares terms only, one entry at a time, deleting the rest of the log at the
    // first difference; `Splice` is the result in closed form.
    method AppendFrom(prev: nat, newEntries: seq<LogEntry>)
      requires prev <= |entries|
      modifies this`entries
      ensures entries == Splice(old(entries), prev, newEntries)
    {
      var index := prev;
      ghost var k := MatchLength(entries, prev, newEntries);
      for i := 0 to |newEntries|
        invariant index == prev + i
        invariant i <= k ==> entries == old(entries)
        invariant i > k ==> entries == old(entries)[..prev + k] + newEntries[k..i]
      {
        var entry := newEntries[i];
        index := index + 1;
        if index <= |entries| {
          if entries[index - 1].term != entry.term {
            entries := entries[..index - 1];
            entries := entries + [entry];
          }
        } else {
          entries := entries + [entry];
        }
        assert i >= k ==> newEntries[k..i + 1] == newEntries[k..i] + [entry];
      }
    }

    method Save(term: nat, vote: Option<NodeId>)
      modifies this`currentTerm, this`votedFor
      ensures currentTerm == term && votedFor == vote
    {
      currentTerm, votedFor := term, vote;
    }
  }
}
