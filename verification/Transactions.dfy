/** Optimistic transactions (`imustore/interface.py`, `imustore/mvcc.py`): a snapshot, a private
    overlay of writes, and a commit that compares, for the keys it writes, the value then with the
    value now. A database is the map its tree stands for; values are the encoded bytes. */
module Transactions {
  import opened Prelude
  import opened Bytes
  import opened KeyOrder
  import opened BPlusIndex
  import B = BPlusTheorems

  type Database = map<Key, bytes>

  // None is the tombstone of a deleted key.
  type Overlay = map<Key, Option<bytes>>

  function Lookup(m: Database, k: Key): Option<bytes> {
    if k in m then Some(m[k]) else None
  }

  function Overlaid(m: Database, o: Overlay): (r: Database)
    ensures forall k :: Lookup(r, k) == if k in o then o[k] else Lookup(m, k)
  {
    map k | k in m.Keys + o.Keys && (k in o ==> o[k].Some?) :: if k in o then o[k].value else m[k]
  }

  lemma SameLookups(a: Database, b: Database)
    requires forall k :: Lookup(a, k) == Lookup(b, k)
    ensures a == b
  {
    forall k ensures k in a <==> k in b {
      assert Lookup(a, k) == Lookup(b, k);
    }
    forall k | k in a ensures a[k] == b[k] {
      assert Lookup(a, k) == Lookup(b, k);
    }
  }

  // ----- what a transaction does -----

  // Each operation with the answer the caller got. A deletion of a missing key fails, and so
  // tells its caller something, but writes nothing.
  datatype Op = Read(key: Key, seen: Option<bytes>) | Write(key: Key, value: bytes) | Remove(key: Key, ok: bool)

  // `began` is the number of transactions that had committed when this one took its snapshot.
  datatype Tx = Tx(base: Database, overlay: Overlay, trace: seq<Op>, began: nat)

  function Sees(base: Database, overlay: Overlay, k: Key): Option<bytes> {
    if k in overlay then overlay[k] else Lookup(base, k)
  }

  function TxGet(t: Tx, k: Key): Tx {
    t.(trace := t.trace + [Read(k, Sees(t.base, t.overlay, k))])
  }

  function TxSet(t: Tx, k: Key, v: bytes): Tx {
    t.(overlay := t.overlay[k := Some(v)], trace := t.trace + [Write(k, v)])
  }

  function TxDelete(t: Tx, k: Key): Tx {
    var ok := Sees(t.base, t.overlay, k).Some?;
    t.(overlay := if ok then t.overlay[k := None] else t.overlay, trace := t.trace + [Remove(k, ok)])
  }

  // Every key to be written has the value it had when the transaction began.
  predicate Validates(base: Database, current: Database, overlay: Overlay) {
    forall k :: k in overlay ==> Lookup(base, k) == Lookup(current, k)
  }

  // ----- many transactions -----

  // `log` holds the committed transactions in commit order.
  datatype System = System(db: Database, txs: map<nat, Tx>, log: seq<Tx>)

  datatype Action =
    | Begin(id: nat) | Get(id: nat, key: Key) | Put(id: nat, key: Key, value: bytes) | Del(id: nat, key: Key)
    | Commit(id: nat) | Abort(id: nat)
    | Direct(key: Key, value: bytes)  // `db[key] = value` followed by `db.commit()`

  // An action on a transaction that is not open does nothing.
  function Next(s: System, a: Action): System {
    match a
    case Begin(id) => if id in s.txs then s else s.(txs := s.txs[id := Tx(s.db, map[], [], |s.log|)])
    case Get(id, k) => if id !in s.txs then s else s.(txs := s.txs[id := TxGet(s.txs[id], k)])
    case Put(id, k, v) => if id !in s.txs then s else s.(txs := s.txs[id := TxSet(s.txs[id], k, v)])
    case Del(id, k) => if id !in s.txs then s else s.(txs := s.txs[id := TxDelete(s.txs[id], k)])
    case Commit(id) => if id !in s.txs then s else Committed(s, id)
    case Abort(id) => s.(txs := s.txs - {id})
    case Direct(k, v) =>
      s.(db := s.db[k := v], log := s.log + [Tx(s.db, map[k := Some(v)], [Write(k, v)], |s.log|)])
  }

  // A transaction without writes ends without a check.
  function Committed(s: System, id: nat): System
    requires id in s.txs
  {
    var t := s.txs[id];
    if t.overlay == map[] then System(s.db, s.txs - {id}, s.log + [t])
    else if Validates(t.base, s.db, t.overlay) then System(Overlaid(s.db, t.overlay), s.txs - {id}, s.log + [t])
    else s.(txs := s.txs - {id})
  }

  function Run(db: Database, actions: seq<Action>): System {
    if actions == [] then System(db, map[], [])
    else Next(Run(db, actions[..|actions| - 1]), actions[|actions| - 1])
  }

  // ----- one transaction after another -----

  // The operation done directly on the database; None if its answer would be another one.
  function Redo(m: Database, op: Op): Option<Database> {
    match op
    case Read(k, seen) => if Lookup(m, k) == seen then Some(m) else None
    case Write(k, v) => Some(m[k := v])
    case Remove(k, ok) => if ok == (k in m) then Some(m - {k}) else None
  }

  function Replay(m: Database, ops: seq<Op>): Option<Database> {
    if ops == [] then Some(m)
    else
      var r := Replay(m, ops[..|ops| - 1]);
      if r.None? then None else Redo(r.value, ops[|ops| - 1])
  }

  // The writes of a trace, as an overlay.
  function Writes(ops: seq<Op>): Overlay {
    if ops == [] then map[]
    else
      var before := Writes(ops[..|ops| - 1]);
      match ops[|ops| - 1]
      case Read(_, _) => before
      case Write(k, v) => before[k := Some(v)]
      case Remove(k, ok) => if ok then before[k := None] else before
  }

  // The keys whose value outside the transaction decided an answer.
  function Asked(ops: seq<Op>): set<Key> {
    if ops == [] then {}
    else
      var before, op := ops[..|ops| - 1], ops[|ops| - 1];
      Asked(before) + if op.Write? || op.key in Writes(before) then {} else {op.key}
  }

  // A caller can see to this: write back whatever decided something.
  predicate WritesWhatItReads(ops: seq<Op>) {
    forall k :: k in Asked(ops) ==> k in Writes(ops)
  }

  // ----- replaying one trace on another database -----

  lemma {:induction false} ReplayIsOverlay(m: Database, ops: seq<Op>)
    requires Replay(m, ops).Some?
    ensures Replay(m, ops).value == Overlaid(m, Writes(ops))
  {
    if ops != [] {
      ReplayIsOverlay(m, ops[..|ops| - 1]);
    }
    SameLookups(Replay(m, ops).value, Overlaid(m, Writes(ops)));
  }

  lemma {:induction false} ReplayElsewhere(base: Database, current: Database, ops: seq<Op>)
    requires Replay(base, ops).Some?
    requires forall k :: k in Asked(ops) ==> Lookup(base, k) == Lookup(current, k)
    ensures Replay(current, ops) == Some(Overlaid(current, Writes(ops)))
  {
    if ops != [] {
      var before, op := ops[..|ops| - 1], ops[|ops| - 1];
      ReplayElsewhere(base, current, before);
      ReplayIsOverlay(base, before);
      var a, b := Replay(base, before).value, Replay(current, before).value;
      assert Lookup(a, op.key) == (if op.key in Writes(before) then Writes(before)[op.key] else Lookup(base, op.key));
      assert Lookup(b, op.key) == (if op.key in Writes(before) then Writes(before)[op.key]
             else Lookup(current, op.key));
    }
    ReplayIsOverlay(current, ops);
  }

  // A key that decided an answer, there where it was missing or missing where it was.
  lemma {:induction false} ReplayBreaks(base: Database, current: Database, ops: seq<Op>, k: Key)
    requires Replay(base, ops).Some? && k in Asked(ops) && (k in base <==> k !in current)
    ensures Replay(current, ops).None?
  {
    var before, op := ops[..|ops| - 1], ops[|ops| - 1];
    if k in Asked(before) {
      ReplayBreaks(base, current, before, k);
    } else if Replay(current, before).Some? {
      ReplayIsOverlay(base, before);
      ReplayIsOverlay(current, before);
      var a, b := Replay(base, before).value, Replay(current, before).value;
      assert Lookup(a, k) == Lookup(base, k) && Lookup(b, k) == Lookup(current, k);
    }
  }

  /** When validation is enough. A transaction that passes it always could have run on the current
      state exactly when every key that decided one of its answers is a key it writes. */
  lemma ValidationIsEnoughIff(base: Database, ops: seq<Op>)
    requires Replay(base, ops).Some?
    ensures (forall current :: Validates(base, current, Writes(ops)) ==> Replay(current, ops).Some?)
       <==> WritesWhatItReads(ops)
  {
    if WritesWhatItReads(ops) {
      forall current | Validates(base, current, Writes(ops)) ensures Replay(current, ops).Some? {
        ReplayElsewhere(base, current, ops);
      }
    } else {
      var k :| k in Asked(ops) && k !in Writes(ops);
      var current := if k in base then base - {k} else base[k := []];
      ReplayBreaks(base, current, ops, k);
      assert Validates(base, current, Writes(ops));
    }
  }

  // ----- every run -----

  // What a transaction answered and wrote is what its operations give on its snapshot.
  predicate Faithful(t: Tx) {
    Replay(t.base, t.trace) == Some(Overlaid(t.base, t.overlay)) && t.overlay == Writes(t.trace)
  }

  lemma FaithfulGrows(t: Tx, u: Tx, op: Op)
    requires Faithful(t) && u.base == t.base && u.trace == t.trace + [op]
    requires match op
             case Read(k, seen) => seen == Sees(t.base, t.overlay, k) && u.overlay == t.overlay
             case Write(k, v) => u.overlay == t.overlay[k := Some(v)]
             case Remove(k, ok) =>
               && ok == Sees(t.base, t.overlay, k).Some?
               && u.overlay == if ok then t.overlay[k := None] else t.overlay
    ensures Faithful(u)
  {
    assert u.trace[..|u.trace| - 1] == t.trace;
    var m := Overlaid(t.base, t.overlay);
    assert Lookup(m, op.key) == Sees(t.base, t.overlay, op.key);
    ReplayIsOverlay(u.base, u.trace);
  }

  // So it is of every transaction, open or committed.
  predicate AllFaithful(s: System) {
    && (forall id :: id in s.txs ==> Faithful(s.txs[id]))
    && (forall t :: t in s.log ==> Faithful(t))
  }

  lemma NextFaithful(s: System, a: Action)
    requires AllFaithful(s)
    ensures AllFaithful(Next(s, a))
  {
    hide Faithful;
    match a {
      case Get(id, k) =>
        if id in s.txs {
          var t := s.txs[id];
          FaithfulGrows(t, TxGet(t, k), Read(k, Sees(t.base, t.overlay, k)));
        }
      case Put(id, k, v) =>
        if id in s.txs { FaithfulGrows(s.txs[id], TxSet(s.txs[id], k, v), Write(k, v)); }
      case Del(id, k) =>
        if id in s.txs {
          var t := s.txs[id];
          FaithfulGrows(t, TxDelete(t, k), Remove(k, Sees(t.base, t.overlay, k).Some?));
        }
      case Begin(id) => FreshFaithful(s.db, |s.log|);
      case Direct(k, v) => DirectFaithful(s.db, k, v, |s.log|);
      case _ =>
    }
  }

  lemma DirectFaithful(db: Database, k: Key, v: bytes, began: nat)
    ensures Faithful(Tx(db, map[k := Some(v)], [Write(k, v)], began))
  {
    var ops := [Write(k, v)];
    assert ops[..0] == [] && Writes(ops[..0]) == map[] && Replay(db, ops[..0]) == Some(db);
    ReplayIsOverlay(db, ops);
  }

  lemma FreshFaithful(db: Database, began: nat)
    ensures Faithful(Tx(db, map[], [], began))
  {
    ReplayIsOverlay(db, []);
  }

  lemma {:induction false} RunFaithful(db: Database, actions: seq<Action>)
    ensures AllFaithful(Run(db, actions))
  {
    if actions != [] {
      RunFaithful(db, actions[..|actions| - 1]);
      NextFaithful(Run(db, actions[..|actions| - 1]), actions[|actions| - 1]);
    }
  }

  // One more committed transaction is one more at the end of the serial order.
  lemma CommitReplays(s: System, id: nat)
    requires AllFaithful(s) && id in s.txs
    ensures var t, n := s.txs[id], Next(s, Commit(id));
            n.log == s.log + [t] && WritesWhatItReads(t.trace) ==> Replay(s.db, t.trace) == Some(n.db)
    ensures Next(s, Commit(id)).log == s.log ==> Next(s, Commit(id)).db == s.db
  {
    var t, n := s.txs[id], Next(s, Commit(id));
    if n.log == s.log + [t] && WritesWhatItReads(t.trace) {
      ReplayElsewhere(t.base, s.db, t.trace);
      SameLookups(n.db, Overlaid(s.db, t.overlay));
    }
  }

  // A snapshot was the database at some point of the run.
  lemma {:induction false} SnapshotWasCurrent(db: Database, actions: seq<Action>, id: nat) returns (i: nat)
    requires id in Run(db, actions).txs
    ensures i <= |actions| && Run(db, actions[..i]).db == Run(db, actions).txs[id].base
  {
    var n := |actions| - 1;
    var before, a := actions[..n], actions[n];
    var s := Run(db, before);
    if a == Begin(id) && id !in s.txs {
      i := n;
    } else {
      i := SnapshotWasCurrent(db, before, id);
      assert before[..i] == actions[..i];
    }
  }

  // A transaction that only reads got every answer from the database as it was at one point of
  // the run.
  lemma ReadersSeeTheirSnapshot(db: Database, actions: seq<Action>, id: nat) returns (i: nat)
    requires id in Run(db, actions).txs && Run(db, actions).txs[id].overlay == map[]
    ensures i <= |actions|
    ensures var past := Run(db, actions[..i]).db; Replay(past, Run(db, actions).txs[id].trace) == Some(past)
  {
    RunFaithful(db, actions);
    var t := Run(db, actions).txs[id];
    SameLookups(t.base, Overlaid(t.base, t.overlay));
    i := SnapshotWasCurrent(db, actions, id);
  }

  // ----- the transaction object -----

  datatype Outcome = Nothing | Published | Conflict

  // `m` is `before` with the writes to the keys in `done`.
  ghost predicate Partly(before: Database, o: Overlay, done: seq<Key>, m: Database) {
    && (forall k :: k in done ==> k in o)
    && forall k :: Lookup(m, k) == if k in done then o[k] else Lookup(before, k)
  }

  lemma PartlyNone(before: Database, o: Overlay)
    ensures Partly(before, o, [], before)
  {
  }

  lemma PartlyNext(before: Database, o: Overlay, done: seq<Key>, m: Database, k: Key)
    requires Partly(before, o, done, m) && k in o
    ensures Partly(before, o, done + [k], if o[k].None? then m - {k} else m[k := o[k].value])
  {
  }

  lemma PartlyAll(before: Database, o: Overlay, done: seq<Key>, m: Database)
    requires Partly(before, o, done, m) && forall k :: k in done <==> k in o
    ensures m == Overlaid(before, o)
  {
    SameLookups(m, Overlaid(before, o));
  }

  class Transaction {
    const index: Index
    var base: Index?
    var overlay: Overlay
    var keys: seq<Key>  // the overlay's keys in the order they were first written

    ghost predicate Open()
      reads this, base
    {
      base != null && base != index && base.Valid() && Ordered()
    }

    ghost predicate Ordered()
      reads this
    {
      forall k :: k in keys <==> k in overlay
    }

    // `base` is a tree of its own pinned to the root of the moment; it is given up at the end.
    constructor (db: Index)
      requires db.Valid()
      ensures index == db && overlay == map[] && Open() && fresh(base) && base.Contents() == db.Contents()
    {
      index, overlay, keys := db, map[], [];
      base := null;
      new;
      var pinned := new Index(db.order);
      pinned.root, pinned.count := db.root, db.count;
      base := pinned;
    }

    // Reads see the transaction's own writes over the snapshot. None is KeyError.
    method Get(k: Key) returns (r: Option<bytes>)
      requires Open()
      ensures r == Sees(base.Contents(), overlay, k)
    {
      if k in overlay {
        return overlay[k];
      }
      r := base.Get(k);
    }

    method Set(k: Key, v: bytes)
      requires Ordered()
      modifies `overlay, `keys
      ensures Ordered() && overlay == old(overlay)[k := Some(v)]
    {
      Enter(k, Some(v));
    }

    method Enter(k: Key, v: Option<bytes>)
      requires Ordered()
      modifies `overlay, `keys
      ensures Ordered() && overlay == old(overlay)[k := v]
    {
      if k !in overlay {
        keys := keys + [k];
      }
      overlay := overlay[k := v];
    }

    // False is KeyError.
    method Delete(k: Key) returns (ok: bool)
      requires Open()
      modifies `overlay, `keys
      ensures Open() && ok == Sees(base.Contents(), old(overlay), k).Some?
      ensures overlay == if ok then old(overlay)[k := None] else old(overlay)
    {
      var seen := Get(k);
      ok := seen.Some?;
      if ok {
        Enter(k, None);
      }
    }

    method CheckConflicts() returns (ok: bool)
      requires Open() && index.Valid()
      ensures ok <==> Validates(base.Contents(), index.Contents(), overlay)
    {
      for i := 0 to |keys|
        invariant forall k :: k in keys[..i] ==> Lookup(base.Contents(), k) == Lookup(index.Contents(), k)
      {
        var k := keys[i];
        assert k in keys;
        assert Ordered() && k in overlay;
        var pinned := base.Get(k);
        var current := index.Get(k);
        if pinned != current {
          return false;
        }
      }
      return true;
    }

    // The operations the tree has been given are those of the overlay.
    method Apply() returns (ghost ops: seq<B.Op>)
      requires Ordered() && index.Valid()
      modifies index
      ensures index.Valid() && index.Contents() == Overlaid(old(index.Contents()), overlay)
      ensures B.State(index.root, index.count) == B.Steps(index.order, B.State(old(index.root), old(index.count)), ops)
      ensures forall op :: op in ops ==> op.key in overlay
    {
      hide Partly, Index.Contents, B.GoodRoot, B.Step;
      ops := [];
      ghost var before, start := index.Contents(), B.State(index.root, index.count);
      PartlyNone(before, overlay);
      for i := 0 to |keys|
        invariant index.Valid() && Partly(before, overlay, keys[..i], index.Contents())
        invariant B.State(index.root, index.count) == B.Steps(index.order, start, ops)
        invariant forall op :: op in ops ==> op.key in overlay
      {
        var k := keys[i];
        assert k in keys;
        ghost var op := if overlay[k].None? then B.DelOp(k) else B.SetOp(k, overlay[k].value);
        assert (ops + [op])[..|ops|] == ops;
        PartlyNext(before, overlay, keys[..i], index.Contents(), k);
        if overlay[k].None? {
          var _ := index.Delete(k);
        } else {
          index.Set(k, overlay[k].value);
        }
        assert keys[..i + 1] == keys[..i] + [k];
        ops := ops + [op];
      }
      assert keys[..|keys|] == keys;
      PartlyAll(before, overlay, keys, index.Contents());
    }

    // All writes take effect, or none does. Either way the transaction is over.
    method Commit() returns (r: Outcome, ghost ops: seq<B.Op>)
      requires Open() && index.Valid()
      modifies this, index
      ensures index.Valid() && base == null && overlay == old(overlay)
      ensures r == Nothing <==> old(overlay) == map[]
      ensures r == Conflict ==> !Validates(old(base.Contents()), old(index.Contents()), old(overlay))
      ensures r == Published ==> Validates(old(base.Contents()), old(index.Contents()), old(overlay))
      ensures r == Published ==> index.Contents() == Overlaid(old(index.Contents()), old(overlay))
      ensures r != Published ==> index.root == old(index.root) && index.count == old(index.count)
      ensures B.State(index.root, index.count) == B.Steps(index.order, B.State(old(index.root), old(index.count)), ops)
      ensures forall op :: op in ops ==> op.key in overlay
    {
      ops := [];
      if overlay == map[] {
        base := null;
        return Nothing, ops;
      }
      var ok := CheckConflicts();
      if ok {
        ops := Apply();
      }
      base := null;
      r := if ok then Published else Conflict;
    }

    method Abort()
      modifies this
      ensures base == null && overlay == map[]
    {
      overlay, keys, base := map[], [], null;
    }
  }
}
