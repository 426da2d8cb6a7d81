/** That a transaction is what its client asked for (`imustore/interface.py`): the operations an open
    transaction has recorded are the calls made on it since it began, and every committed
    transaction is the calls made on one handle up to its commit, or a direct write. */
module TransactionTraces {
  import opened Prelude
  import opened Bytes
  import opened KeyOrder
  import opened Transactions

  // A call, without its answer.
  datatype Call = AskFor(key: Key) | Change(key: Key, value: bytes) | Drop(key: Key)

  function CallOf(op: Op): Call {
    match op
    case Read(k, _) => AskFor(k)
    case Write(k, v) => Change(k, v)
    case Remove(k, _) => Drop(k)
  }

  function Calls(ops: seq<Op>): (cs: seq<Call>)
    ensures |cs| == |ops| && forall i :: 0 <= i < |ops| ==> cs[i] == CallOf(ops[i])
  {
    seq(|ops|, i requires 0 <= i < |ops| => CallOf(ops[i]))
  }

  // The calls made on `id` since it was last begun, after one more action; None if it is not open.
  function Since(before: Option<seq<Call>>, a: Action, id: nat): Option<seq<Call>> {
    match a
    case Begin(i) => if i == id && before.None? then Some([]) else before
    case Get(i, k) => if i == id then More(before, AskFor(k)) else before
    case Put(i, k, v) => if i == id then More(before, Change(k, v)) else before
    case Del(i, k) => if i == id then More(before, Drop(k)) else before
    case Commit(i) => if i == id then None else before
    case Abort(i) => if i == id then None else before
    case Direct(_, _) => before
  }

  function More(cs: Option<seq<Call>>, c: Call): Option<seq<Call>> {
    if cs.None? then None else Some(cs.value + [c])
  }

  function Made(actions: seq<Action>, id: nat): Option<seq<Call>> {
    if actions == [] then None
    else Since(Made(actions[..|actions| - 1], id), actions[|actions| - 1], id)
  }

  function Recorded(s: System, id: nat): Option<seq<Call>> {
    if id in s.txs then Some(Calls(s.txs[id].trace)) else None
  }

  lemma NextRecords(s: System, a: Action, id: nat)
    ensures Recorded(Next(s, a), id) == Since(Recorded(s, id), a, id)
  {
    hide Validates, Overlaid, Sees;
    if id in s.txs {
      var trace := s.txs[id].trace;
      forall op ensures Calls(trace + [op]) == Calls(trace) + [CallOf(op)] {
      }
    }
  }

  // An open transaction has recorded the calls made on it.
  lemma {:induction false} TraceIsMade(db: Database, actions: seq<Action>, id: nat)
    ensures Recorded(Run(db, actions), id) == Made(actions, id)
  {
    hide Next, Since;
    if actions != [] {
      var before, a := actions[..|actions| - 1], actions[|actions| - 1];
      TraceIsMade(db, before, id);
      NextRecords(Run(db, before), a, id);
    }
  }

  // Step `j` committed the transaction: a commit of the handle it was made on, or a direct write.
  predicate CommittedBy(actions: seq<Action>, j: nat, t: Tx)
    requires j < |actions|
  {
    match actions[j]
    case Commit(id) => Made(actions[..j], id) == Some(Calls(t.trace))
    case Direct(k, v) => t.trace == [Write(k, v)]
    case _ => false
  }

  /** Every committed transaction is what some client asked for, in commit order: the calls made on
      its handle, or the one write. */
  lemma {:induction false} LogIsMade(db: Database, actions: seq<Action>) returns (steps: seq<nat>)
    ensures |steps| == |Run(db, actions).log|
    ensures forall i, j :: 0 <= i < j < |steps| ==> steps[i] < steps[j]
    ensures forall i :: 0 <= i < |steps| ==>
              steps[i] < |actions| && CommittedBy(actions, steps[i], Run(db, actions).log[i])
  {
    if actions == [] {
      steps := [];
    } else {
      var n := |actions| - 1;
      var before, a := actions[..n], actions[n];
      var s := Run(db, before);
      steps := LogIsMade(db, before);
      forall i | 0 <= i < |steps| ensures CommittedBy(actions, steps[i], s.log[i]) {
        assert before[..steps[i]] == actions[..steps[i]];
      }
      LogGrows(s, a);
      if Run(db, actions).log != s.log {
        if a.Commit? {
          TraceIsMade(db, before, a.id);
        }
        steps := steps + [n];
      }
    }
  }

  lemma LogGrows(s: System, a: Action)
    ensures var n := Next(s, a);
            || n.log == s.log
            || (a.Commit? && a.id in s.txs && n.log == s.log + [s.txs[a.id]])
            || (a.Direct? && s.log < n.log && |n.log| == |s.log| + 1 && n.log[|s.log|].trace == [Write(a.key, a.value)])
  {
  }

  // A commit takes effect exactly when every key it writes is as it was when it began, and then it
  // changes those keys and no others; otherwise it changes nothing. Either way it is over.
  lemma CommitTakesEffectIff(s: System, id: nat)
    requires id in s.txs
    ensures var t, n := s.txs[id], Next(s, Commit(id));
            var same := (forall k :: k in t.overlay ==> Lookup(t.base, k) == Lookup(s.db, k));
            && (n.log == s.log + [t] <==> same) && (n.log == s.log <==> !same)
            && (forall k :: Lookup(n.db, k) == if same && k in t.overlay then t.overlay[k] else Lookup(s.db, k))
            && n.txs == s.txs - {id}
  {
    var t := s.txs[id];
    assert |s.log + [t]| == |s.log| + 1;
  }
}
