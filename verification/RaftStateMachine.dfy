/** The state machines that consume committed commands (`imustore/raft/statemachine.py`). */
module RaftStateMachine {
  import opened Prelude
  import opened RaftMessages
  import opened RaftSpec
  import opened RaftCluster
  import opened RaftTheorems

  function Effect(state: map<string, string>, c: Command): map<string, string> {
    match c
    case Set(k, v) => state[k := v]
    case Del(k) => state - {k}
    case Noop => state
  }

  // The key-value state a sequence of commands amounts to.
  function Outcome(cs: seq<Command>): map<string, string> {
    if cs == [] then map[] else Effect(Outcome(cs[..|cs| - 1]), cs[|cs| - 1])
  }

  predicate Touches(c: Command, k: string) {
    !c.Noop? && c.key == k
  }

  // The last command to touch a key decides it: a key has the value last set, unless it was deleted
  // since.
  lemma {:induction false} OutcomeIsLastWrite(cs: seq<Command>, k: string, v: string)
    ensures k in Outcome(cs) && Outcome(cs)[k] == v <==>
            exists i :: 0 <= i < |cs| && cs[i] == Set(k, v) && forall j :: i < j < |cs| ==> !Touches(cs[j], k)
  {
    if cs != [] {
      var n := |cs| - 1;
      var init := cs[..n];
      OutcomeIsLastWrite(init, k, v);
      assert forall i :: 0 <= i < n ==> init[i] == cs[i];
    }
  }

  function Commands(applied: seq<Application>): seq<Command> {
    seq(|applied|, i requires 0 <= i < |applied| => applied[i].command)
  }

  // The in-memory state machine of the simulator.
  class Recorder {
    var applied: seq<Application>
    var appliedIndex: nat

    constructor ()
      ensures applied == [] && appliedIndex == 0
    {
      applied, appliedIndex := [], 0;
    }

    method Apply(index: nat, command: Command)
      modifies this
      ensures applied == old(applied) + [Application(index, command)] && appliedIndex == index
    {
      applied := applied + [Application(index, command)];
      appliedIndex := index;
    }

    method Kv() returns (state: map<string, string>)
      ensures state == Outcome(Commands(applied))
    {
      state := map[];
      ghost var cs := Commands(applied);
      for i := 0 to |applied|
        invariant state == Outcome(cs[..i])
      {
        var command := applied[i].command;
        assert cs[..i + 1][..i] == cs[..i];
        match command {
          case Set(k, v) => state := state[k := v];
          case Del(k) => state := state - {k};
          case Noop =>
        }
      }
      assert cs[..|applied|] == cs;
    }
  }

  // Replicas that have applied equally many commands are in the same state.
  lemma ReplicasConverge(run: seq<Cluster>, i: nat, j: nat, a: NodeId, b: NodeId)
    requires IsRun(run) && i < |run| && j < |run| && a in run[i].nodes && b in run[j].nodes
    requires run[i].nodes[a].lastApplied == run[j].nodes[b].lastApplied
    ensures Outcome(Commands(run[i].nodes[a].applied)) == Outcome(Commands(run[j].nodes[b].applied))
  {
    hide IsRun;
    AppliedExactlyOnce(run, i, a);
    AppliedExactlyOnce(run, j, b);
    StateMachinesAgree(run, i, j, a, b);
    assert run[i].nodes[a].applied == run[j].nodes[b].applied;
  }

  // ----- the database-backed state machine -----

  const APPLIED_KEY := "__raft_applied_index__"

  datatype Stored = Text(text: string) | Index(index: nat)

  type Store = map<string, Stored>

  function AppliedIndexOf(db: Store): nat {
    if APPLIED_KEY in db && db[APPLIED_KEY].Index? then db[APPLIED_KEY].index else 0
  }

  // The database has no empty key: setting or deleting one is a KeyEncodingError, which `apply`
  // lets through.
  predicate Refuses(c: Command) {
    match c
    case Set(k, _) => k == ""
    case Del(k) => k == ""
    case Noop => false
  }

  // The database after one command and the applied index have been committed together.
  function Committed(db: Store, index: nat, c: Command): Store {
    var data := match c
      case Set(k, v) => db[k := Text(v)]
      case Del(k) => db - {k}
      case Noop => db;
    data[APPLIED_KEY := Index(index)]
  }

  // The database after these commands have been given to it, each once at its own index.
  function StoreAfter(cs: seq<Command>): Store {
    if cs == [] then map[]
    else
      var db, c := StoreAfter(cs[..|cs| - 1]), cs[|cs| - 1];
      if Refuses(c) then db else Committed(db, |cs|, c)
  }

  // The index of the last command that was not refused.
  function LastTaken(cs: seq<Command>): (k: nat)
    ensures k <= |cs| && (k > 0 ==> !Refuses(cs[k - 1]))
  {
    if cs == [] then 0 else if Refuses(cs[|cs| - 1]) then LastTaken(cs[..|cs| - 1]) else |cs|
  }

  function AsText(state: map<string, string>): Store {
    map k | k in state :: Text(state[k])
  }

  class KVStateMachine {
    var staged: Store
    var durable: Store

    constructor ()
      ensures staged == durable == map[]
    {
      staged, durable := map[], map[];
    }

    method AppliedIndex() returns (index: nat)
      ensures index == AppliedIndexOf(staged)
    {
      if APPLIED_KEY in staged && staged[APPLIED_KEY].Index? {
        index := staged[APPLIED_KEY].index;
      } else {
        index := 0;
      }
    }

    // Power may fail before any of the three steps (`crashAt` 0, 1, 2); staged writes are then
    // lost and the durable database is what it was. A refused command stages nothing.
    method Apply(index: nat, command: Command, crashAt: nat) returns (r: Attempt)
      requires staged == durable
      modifies this
      ensures staged == durable
      ensures r == Crashed <==> crashAt == 0 || (crashAt < 3 && !Refuses(command))
      ensures r == Refused ==> Refuses(command)
      ensures r == Done ==> !Refuses(command)
      ensures durable == if r == Done then Committed(old(durable), index, command) else old(durable)
    {
      if crashAt == 0 { return Crashed; }
      match command {
        case Set(k, v) =>
          if k == "" { return Refused; }
          staged := staged[k := Text(v)];
        case Del(k) =>
          if k == "" { return Refused; }
          staged := staged - {k};
        case Noop =>
      }
      if crashAt == 1 { staged := durable; return Crashed; }
      staged := staged[APPLIED_KEY := Index(index)];
      if crashAt == 2 { staged := durable; return Crashed; }
      durable := staged;
      return Done;
    }

    // A node applying committed commands, restarting from the stored index after each crash. The
    // node counts a command as applied before it hands it over, so a refused one is not tried
    // again until a restart. At every moment the database is what the first `k` commands make it,
    // and every attempt that does not crash gets one command further.
    method Resume(log: seq<Command>, crashes: seq<nat>) returns (k: nat)
      requires staged == durable && AppliedIndexOf(durable) <= |log|
      requires durable == StoreAfter(log[..AppliedIndexOf(durable)])
      modifies this
      ensures old(AppliedIndexOf(durable)) <= AppliedIndexOf(durable) <= k <= |log|
      ensures staged == durable && durable == StoreAfter(log[..k])
      ensures (forall i :: 0 <= i < |log| ==> !Refuses(log[i])) ==> k == AppliedIndexOf(durable)
      ensures (forall c :: c in crashes ==> c >= 3) ==>
                k == Min(old(AppliedIndexOf(durable)) + |crashes|, |log|)
    {
      hide StoreAfter, Committed, LastTaken, AppliedIndexOf;
      k := AppliedIndex();
      StoreIsOutcome(log[..k]);
      for i := 0 to |crashes|
        invariant staged == durable && k <= |log| && durable == StoreAfter(log[..k])
        invariant old(AppliedIndexOf(durable)) <= AppliedIndexOf(durable) == LastTaken(log[..k])
        invariant (forall c :: c in crashes ==> c >= 3) ==> k == Min(old(AppliedIndexOf(durable)) + i, |log|)
      {
        assert crashes[i] in crashes;
        if k < |log| {
          NextCommand(log, k);
          StoreIsOutcome(log[..k + 1]);
          var r := Apply(k + 1, log[k], crashes[i]);
          if r == Crashed {
            k := Restarted(log, k);
          } else {
            k := k + 1;
          }
        }
      }
      if forall i :: 0 <= i < |log| ==> !Refuses(log[i]) {
        NoneRefused(log[..k]);
      }
    }

    // Start again from the stored index: the commands after it were all refused.
    method Restarted(log: seq<Command>, ghost before: nat) returns (k: nat)
      requires before <= |log| && staged == durable == StoreAfter(log[..before])
      ensures k == AppliedIndexOf(durable) <= before && durable == StoreAfter(log[..k]) && k == LastTaken(log[..k])
    {
      k := AppliedIndex();
      StoreIsOutcome(log[..before]);
      RefusedLeaveNothing(log[..before]);
      assert log[..before][..k] == log[..k];
      StoreIsOutcome(log[..k]);
    }
  }

  datatype Attempt = Done | Crashed | Refused

  lemma NextCommand(log: seq<Command>, k: nat)
    requires k < |log|
    ensures var db, c := StoreAfter(log[..k]), log[k];
            StoreAfter(log[..k + 1]) == if Refuses(c) then db else Committed(db, k + 1, c)
    ensures LastTaken(log[..k]) <= LastTaken(log[..k + 1])
  {
    assert log[..k + 1][..k] == log[..k];
  }

  lemma NoneRefused(cs: seq<Command>)
    requires forall i :: 0 <= i < |cs| ==> !Refuses(cs[i])
    ensures LastTaken(cs) == |cs|
  {
  }

  lemma {:induction false} RefusedLeaveNothing(cs: seq<Command>)
    ensures StoreAfter(cs) == StoreAfter(cs[..LastTaken(cs)])
  {
    if cs != [] && Refuses(cs[|cs| - 1]) {
      var init := cs[..|cs| - 1];
      RefusedLeaveNothing(init);
      assert init[..LastTaken(init)] == cs[..LastTaken(cs)];
    } else {
      assert cs[..|cs|] == cs;
    }
  }

  // The stored state says which command it was last brought up to, and apart from that one key it
  // is the outcome of the commands without the empty key.
  lemma {:induction false} StoreIsOutcome(cs: seq<Command>)
    ensures AppliedIndexOf(StoreAfter(cs)) == LastTaken(cs)
    ensures StoreAfter(cs) - {APPLIED_KEY} == AsText(Outcome(cs)) - {APPLIED_KEY, ""}
  {
    if cs != [] {
      var init, c := cs[..|cs| - 1], cs[|cs| - 1];
      StoreIsOutcome(init);
      StepIsOutcome(StoreAfter(init), Outcome(init), |cs|, c);
    }
  }

  lemma StepIsOutcome(db: Store, state: map<string, string>, index: nat, c: Command)
    requires db - {APPLIED_KEY} == AsText(state) - {APPLIED_KEY, ""}
    ensures (if Refuses(c) then db else Committed(db, index, c)) - {APPLIED_KEY} ==
            AsText(Effect(state, c)) - {APPLIED_KEY, ""}
  {
    var x, y := (if Refuses(c) then db else Committed(db, index, c)) - {APPLIED_KEY},
        AsText(Effect(state, c)) - {APPLIED_KEY, ""};
    forall k ensures k in x <==> k in y {
      assert k in db - {APPLIED_KEY} <==> k in AsText(state) - {APPLIED_KEY, ""};
    }
    forall k | k in x ensures x[k] == y[k] {
      if k in db { assert (db - {APPLIED_KEY})[k] == (AsText(state) - {APPLIED_KEY, ""})[k]; }
    }
  }

  /** The database is the outcome of the commands it was given exactly when that outcome has no
      empty key. */
  lemma StoreIsFoldIff(cs: seq<Command>)
    ensures StoreAfter(cs) - {APPLIED_KEY} == AsText(Outcome(cs)) - {APPLIED_KEY} <==> "" !in Outcome(cs)
  {
    StoreIsOutcome(cs);
    var x, y := StoreAfter(cs) - {APPLIED_KEY}, AsText(Outcome(cs)) - {APPLIED_KEY};
    assert "" !in x && ("" in y <==> "" in Outcome(cs));
    if "" !in Outcome(cs) {
      assert AsText(Outcome(cs)) - {APPLIED_KEY, ""} == y;
    }
  }

  /** Otherwise a command is lost without a trace: after any commands, setting the empty key and
      then doing anything else that is taken brings the stored index past both, without the set. */
  lemma EmptyKeyIsSkipped(cs: seq<Command>, v: string, c: Command)
    requires !Refuses(c)
    ensures var all := cs + [Set("", v)] + [c];
            && AppliedIndexOf(StoreAfter(all)) == |all|
            && "" in Outcome(all) && "" !in StoreAfter(all)
  {
    var one := cs + [Set("", v)];
    var all := one + [c];
    assert all[..|one|] == one && one[..|cs|] == cs;
    assert Outcome(one)[""] == v;
    StoreIsOutcome(all);
    assert "" !in StoreAfter(all) - {APPLIED_KEY};
  }
}
