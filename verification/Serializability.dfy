/** Serializability of the optimistic transactions (`imustore/interface.py`): one serial order for every
    run whose committed transactions are orderly, and why no weaker condition on a transaction
    will do. */
module Serializability {
  import opened Prelude
  import opened Bytes
  import opened KeyOrder
  import opened Transactions

  // ----- serial orders -----

  // Whole transactions, each starting where the one before ended; None if one of them would have
  // got another answer.
  function Serial(m: Database, order: seq<Tx>): Option<Database> {
    if order == [] then Some(m)
    else
      var r := Serial(m, order[..|order| - 1]);
      if r.None? then None else Replay(r.value, order[|order| - 1].trace)
  }

  predicate InRange(perm: seq<nat>, n: nat) {
    forall i :: 0 <= i < |perm| ==> perm[i] < n
  }

  // The transactions at these places of the log, in that order.
  function Pick(log: seq<Tx>, perm: seq<nat>): (o: seq<Tx>)
    requires InRange(perm, |log|)
    ensures |o| == |perm| && forall i :: 0 <= i < |o| ==> o[i] == log[perm[i]]
  {
    seq(|perm|, i requires 0 <= i < |perm| => log[perm[i]])
  }

  // Every place once.
  predicate Permutes(perm: seq<nat>, n: nat) {
    && |perm| == n && InRange(perm, n)
    && (forall i: nat :: i < n ==> i in perm)
    && (forall i, j :: 0 <= i < j < |perm| ==> perm[i] != perm[j])
  }

  // All committed transactions, in that order, give every answer they got and the state they left.
  predicate Explains(m: Database, s: System, perm: seq<nat>) {
    Permutes(perm, |s.log|) && Serial(m, Pick(s.log, perm)) == Some(s.db)
  }

  // None that had committed when another began comes after it.
  predicate InRealTime(log: seq<Tx>, perm: seq<nat>)
    requires InRange(perm, |log|)
  {
    forall x, y :: 0 <= x < y < |perm| ==> log[perm[x]].began <= perm[y]
  }

  // A transaction that leaves its snapshot as it found it, as one without writes does.
  predicate Still(t: Tx) {
    Replay(t.base, t.trace) == Some(t.base)
  }

  // Each of those stands where its snapshot is the state.
  predicate StillInPlace(m: Database, order: seq<Tx>) {
    forall x :: 0 <= x < |order| && Still(order[x]) ==> Serial(m, order[..x]) == Some(order[x].base)
  }

  // The others stand in the order of their commits.
  predicate ChangersInOrder(log: seq<Tx>, perm: seq<nat>)
    requires InRange(perm, |log|)
  {
    forall x, y :: 0 <= x < y < |perm| && !Still(log[perm[x]]) && !Still(log[perm[y]]) ==> perm[x] < perm[y]
  }

  // What to ask of a transaction: it writes what it reads, or it leaves its snapshot alone.
  ghost predicate Orderly(t: Tx) {
    WritesWhatItReads(t.trace) || Still(t)
  }

  lemma {:induction false} SerialConcat(m: Database, a: seq<Tx>, b: seq<Tx>)
    ensures Serial(m, a + b) == if Serial(m, a).None? then None else Serial(Serial(m, a).value, b)
  {
    if b == [] {
      assert a + b == a;
    } else {
      var init := b[..|b| - 1];
      assert (a + b)[..|a + b| - 1] == a + init;
      SerialConcat(m, a, init);
    }
  }

  lemma SerialSnoc(m: Database, order: seq<Tx>, t: Tx)
    ensures Serial(m, order + [t]) == if Serial(m, order).None? then None else Replay(Serial(m, order).value, t.trace)
  {
    assert (order + [t])[..|order|] == order;
  }

  // ----- putting one more into an order -----

  function Insert<T>(xs: seq<T>, p: nat, x: T): (r: seq<T>)
    requires p <= |xs|
    ensures |r| == |xs| + 1 && r[p] == x
    ensures forall i :: 0 <= i < p ==> r[i] == xs[i]
    ensures forall i :: p < i <= |xs| ==> r[i] == xs[i - 1]
  {
    xs[..p] + [x] + xs[p..]
  }

  lemma PickInsert(log: seq<Tx>, perm: seq<nat>, p: nat, t: Tx)
    requires InRange(perm, |log|) && p <= |perm|
    ensures InRange(Insert(perm, p, |log|), |log| + 1)
    ensures Pick(log + [t], Insert(perm, p, |log|)) == Insert(Pick(log, perm), p, t)
  {
  }

  // Beyond the place where it was put, a transaction that changes nothing there changes nothing.
  lemma SerialInsert(m: Database, order: seq<Tx>, p: nat, t: Tx, x: nat)
    requires p <= x <= |order| && Still(t) && Serial(m, order[..p]) == Some(t.base)
    ensures Serial(m, Insert(order, p, t)[..x + 1]) == Serial(m, order[..x])
  {
    hide Serial;
    assert Insert(order, p, t)[..x + 1] == order[..p] + [t] + order[p..x];
    assert order[..x] == order[..p] + order[p..x];
    SerialSnoc(m, order[..p], t);
    SerialConcat(m, order[..p] + [t], order[p..x]);
    SerialConcat(m, order[..p], order[p..x]);
  }

  lemma StillInsert(m: Database, order: seq<Tx>, p: nat, t: Tx)
    requires p <= |order| && StillInPlace(m, order) && Still(t) && Serial(m, order[..p]) == Some(t.base)
    ensures StillInPlace(m, Insert(order, p, t))
  {
    hide Serial, Still;
    var r := Insert(order, p, t);
    forall x | 0 <= x < |r| && Still(r[x]) ensures Serial(m, r[..x]) == Some(r[x].base) {
      if x <= p {
        assert r[..x] == order[..x];
      } else {
        SerialInsert(m, order, p, t, x - 1);
      }
    }
  }

  lemma StillSnoc(m: Database, order: seq<Tx>, t: Tx)
    requires StillInPlace(m, order) && (Still(t) ==> Serial(m, order) == Some(t.base))
    ensures StillInPlace(m, order + [t])
  {
    hide Serial, Still;
    var r := order + [t];
    forall x | 0 <= x < |r| && Still(r[x]) ensures Serial(m, r[..x]) == Some(r[x].base) {
      assert r[..x] == if x < |order| then order[..x] else order;
    }
  }

  // No transaction began after more commits than its own place in the log.
  predicate Began(log: seq<Tx>) {
    forall i :: 0 <= i < |log| ==> log[i].began <= i
  }

  // All that had committed when `t` began stand before place `p`.
  predicate After(perm: seq<nat>, p: nat, t: Tx) {
    p <= |perm| && forall i: nat :: i < t.began ==> i in perm[..p]
  }

  lemma PermuteInsert(log: seq<Tx>, perm: seq<nat>, p: nat, t: Tx)
    requires Permutes(perm, |log|) && p <= |perm|
    ensures Permutes(Insert(perm, p, |log|), |log| + 1)
  {
    var r, n := Insert(perm, p, |log|), |log|;
    forall i: nat | i < n + 1 ensures i in r {
      if i == n {
        assert r[p] == n;
      } else {
        assert i in perm;
        var x :| 0 <= x < |perm| && perm[x] == i;
        assert r[if x < p then x else x + 1] == i;
      }
    }
  }

  lemma TimeInsert(log: seq<Tx>, perm: seq<nat>, p: nat, t: Tx)
    requires Permutes(perm, |log|) && After(perm, p, t) && Began(log) && InRealTime(log, perm) && t.began <= |log|
    ensures InRange(Insert(perm, p, |log|), |log| + 1)
    ensures InRealTime(log + [t], Insert(perm, p, |log|))
  {
    var r, all := Insert(perm, p, |log|), log + [t];
    forall x, y | 0 <= x < y < |r| ensures all[r[x]].began <= r[y] {
      if x == p {
        assert forall z :: 0 <= z < p ==> perm[z] != perm[y - 1];
        assert perm[y - 1] !in perm[..p];
      } else {
        var u := if x < p then x else x - 1;
        assert all[r[x]] == log[perm[u]];
        if y == p { assert log[perm[u]].began <= perm[u]; }
      }
    }
  }

  lemma ChangersInsert(log: seq<Tx>, perm: seq<nat>, p: nat, t: Tx)
    requires InRange(perm, |log|) && p <= |perm| && ChangersInOrder(log, perm) && (p == |perm| || Still(t))
    ensures InRange(Insert(perm, p, |log|), |log| + 1)
    ensures ChangersInOrder(log + [t], Insert(perm, p, |log|))
  {
    hide Still;
    var r, all := Insert(perm, p, |log|), log + [t];
    forall x, y | 0 <= x < y < |r| && !Still(all[r[x]]) && !Still(all[r[y]]) ensures r[x] < r[y] {
      if x != p && y != p {
        var u, v := if x < p then x else x - 1, if y < p then y else y - 1;
        assert all[r[x]] == log[perm[u]] && all[r[y]] == log[perm[v]];
      }
    }
  }

  lemma AfterInsert(perm: seq<nat>, p: nat, x: nat, q: nat, t: Tx)
    requires p <= |perm| && After(perm, q, t)
    ensures After(Insert(perm, p, x), if q < p then q else q + 1, t)
  {
    var r, z := Insert(perm, p, x), if q < p then q else q + 1;
    forall i: nat | i < t.began ensures i in r[..z] {
      assert i in perm[..q];
      var y :| 0 <= y < q && perm[..q][y] == i;
      assert r[..z][if y < p then y else y + 1] == i;
    }
  }

  // ----- the order of a run -----

  // An open transaction could stand at `p`: its snapshot is the state there.
  predicate Fits(m: Database, log: seq<Tx>, perm: seq<nat>, t: Tx, p: nat)
    requires InRange(perm, |log|)
  {
    After(perm, p, t) && t.began <= |log| && Serial(m, Pick(log, perm)[..p]) == Some(t.base)
  }

  ghost predicate HasPlace(m: Database, log: seq<Tx>, perm: seq<nat>, t: Tx)
    requires InRange(perm, |log|)
  {
    exists p: nat :: Fits(m, log, perm, t, p)
  }

  predicate Placed(m: Database, s: System, perm: seq<nat>) {
    && Explains(m, s, perm) && Began(s.log)
    && InRealTime(s.log, perm) && StillInPlace(m, Pick(s.log, perm)) && ChangersInOrder(s.log, perm)
  }

  ghost predicate AllPlaced(m: Database, s: System, perm: seq<nat>) {
    Placed(m, s, perm) && forall id :: id in s.txs ==> HasPlace(m, s.log, perm, s.txs[id])
  }

  // Every transaction open in `n` is open in `s`, with the same snapshot.
  predicate SameSnapshots(s: System, n: System) {
    forall id :: id in n.txs ==> id in s.txs && n.txs[id].base == s.txs[id].base && n.txs[id].began == s.txs[id].began
  }

  lemma SameFits(m: Database, log: seq<Tx>, perm: seq<nat>, t: Tx, u: Tx)
    requires InRange(perm, |log|) && t.base == u.base && t.began == u.began && HasPlace(m, log, perm, t)
    ensures HasPlace(m, log, perm, u)
  {
    var p: nat :| Fits(m, log, perm, t, p);
    assert Fits(m, log, perm, u, p);
  }

  // Places move by at most one when another transaction is put in.
  lemma FitsInsert(m: Database, log: seq<Tx>, perm: seq<nat>, p: nat, t: Tx, u: Tx)
    requires InRange(perm, |log|) && p <= |perm| && HasPlace(m, log, perm, u)
    requires p == |perm| || (Still(t) && Serial(m, Pick(log, perm)[..p]) == Some(t.base))
    ensures InRange(Insert(perm, p, |log|), |log| + 1)
    ensures HasPlace(m, log + [t], Insert(perm, p, |log|), u)
  {
    hide Serial, Still, After;
    var o := Pick(log, perm);
    PickInsert(log, perm, p, t);
    var q: nat :| Fits(m, log, perm, u, q);
    AfterBound(perm, q, u);
    AfterInsert(perm, p, |log|, q, u);
    if q < p {
      assert Insert(o, p, t)[..q] == o[..q];
      assert Fits(m, log + [t], Insert(perm, p, |log|), u, q);
    } else if p < |perm| {
      SerialInsert(m, o, p, t, q);
      assert Fits(m, log + [t], Insert(perm, p, |log|), u, q + 1);
    } else {
      AfterEarlier(perm, q, |log|, u);
      assert Insert(o, p, t)[..q] == o[..q];
      assert Fits(m, log + [t], Insert(perm, p, |log|), u, q);
    }
  }

  lemma AfterBound(perm: seq<nat>, q: nat, t: Tx)
    requires After(perm, q, t)
    ensures q <= |perm|
  {
  }

  lemma AfterEarlier(perm: seq<nat>, q: nat, x: nat, t: Tx)
    requires After(perm, q, t)
    ensures After(Insert(perm, |perm|, x), q, t)
  {
    assert Insert(perm, |perm|, x)[..q] == perm[..q];
  }

  // Where a committed transaction can go: to where it changes nothing, or else to the end.
  predicate Goes(m: Database, s: System, n: System, perm: seq<nat>, p: nat, t: Tx) {
    && InRange(perm, |s.log|) && After(perm, p, t) && t.began <= |s.log| && n.log == s.log + [t]
    && if Still(t) then n.db == s.db && Serial(m, Pick(s.log, perm)[..p]) == Some(t.base)
       else p == |perm| && Replay(s.db, t.trace) == Some(n.db)
  }

  lemma Place(m: Database, s: System, n: System, perm: seq<nat>, p: nat, t: Tx)
    requires AllPlaced(m, s, perm) && SameSnapshots(s, n) && Goes(m, s, n, perm, p, t)
    ensures AllPlaced(m, n, Insert(perm, p, |s.log|))
  {
    hide Serial, Still, After, InRealTime, ChangersInOrder, StillInPlace, HasPlace, Began;
    AfterBound(perm, p, t);
    PermuteInsert(s.log, perm, p, t);
    TimeInsert(s.log, perm, p, t);
    ChangersInsert(s.log, perm, p, t);
    PlaceSerial(m, s, n, perm, p, t);
    BeganSnoc(s.log, t);
    forall id | id in n.txs ensures HasPlace(m, n.log, Insert(perm, p, |s.log|), n.txs[id]) {
      FitsInsert(m, s.log, perm, p, t, s.txs[id]);
      SameFits(m, n.log, Insert(perm, p, |s.log|), s.txs[id], n.txs[id]);
    }
  }

  lemma BeganSnoc(log: seq<Tx>, t: Tx)
    requires Began(log) && t.began <= |log|
    ensures Began(log + [t])
  {
  }

  lemma PlaceSerial(m: Database, s: System, n: System, perm: seq<nat>, p: nat, t: Tx)
    requires Placed(m, s, perm) && Goes(m, s, n, perm, p, t)
    ensures InRange(Insert(perm, p, |s.log|), |n.log|)
    ensures var o := Pick(n.log, Insert(perm, p, |s.log|)); Serial(m, o) == Some(n.db) && StillInPlace(m, o)
  {
    hide Serial, StillInPlace, InRealTime, ChangersInOrder;
    var o := Pick(s.log, perm);
    PickInsert(s.log, perm, p, t);
    if Still(t) {
      StillInsert(m, o, p, t);
      SerialInsert(m, o, p, t, |o|);
      assert o[..|o|] == o && Insert(o, p, t)[..|o| + 1] == Insert(o, p, t);
    } else {
      assert Insert(o, p, t) == o + [t];
      SerialSnoc(m, o, t);
      StillSnoc(m, o, t);
    }
  }

  // ----- commits -----

  // A transaction that leaves its snapshot alone and passes validation leaves the database alone.
  lemma StillCommit(s: System, id: nat)
    requires AllFaithful(s) && id in s.txs && Still(s.txs[id])
    ensures Next(s, Commit(id)).db == s.db
  {
    var t, n := s.txs[id], Next(s, Commit(id));
    forall k ensures Lookup(n.db, k) == Lookup(s.db, k) {
      assert Lookup(Overlaid(t.base, t.overlay), k) == Lookup(t.base, k);
    }
    SameLookups(n.db, s.db);
  }

  lemma AfterEnd(log: seq<Tx>, perm: seq<nat>, t: Tx)
    requires Permutes(perm, |log|) && t.began <= |log|
    ensures After(perm, |perm|, t)
  {
    assert perm[..|perm|] == perm;
  }

  lemma PlaceCommit(m: Database, s: System, id: nat, perm: seq<nat>) returns (r: seq<nat>)
    requires AllFaithful(s) && AllPlaced(m, s, perm) && id in s.txs
    requires Next(s, Commit(id)).log == s.log || Orderly(s.txs[id])
    ensures AllPlaced(m, Next(s, Commit(id)), r)
  {
    hide Serial, Still, WritesWhatItReads, Faithful, InRealTime, ChangersInOrder, StillInPlace, Began, Permutes,
        After, Next;
    var t, n := s.txs[id], Next(s, Commit(id));
    CommitLogs(s, id);
    CommitReplays(s, id);
    assert InRange(perm, |s.log|) by { PermuteRange(perm, |s.log|); }
    if n.log == s.log {
      KeepPlaces(m, s, n, perm);
      return perm;
    }
    var p: nat :| Fits(m, s.log, perm, t, p);
    if Still(t) {
      StillCommit(s, id);
    } else {
      p := |perm|;
      AfterEnd(s.log, perm, t);
    }
    AfterBound(perm, p, t);
    Place(m, s, n, perm, p, t);
    r := Insert(perm, p, |s.log|);
  }

  lemma PermuteRange(perm: seq<nat>, n: nat)
    requires Permutes(perm, n)
    ensures InRange(perm, n)
  {
  }

  // Without a commit nothing moves.
  lemma KeepPlaces(m: Database, s: System, n: System, perm: seq<nat>)
    requires AllPlaced(m, s, perm) && SameSnapshots(s, n) && n.log == s.log && n.db == s.db
    ensures AllPlaced(m, n, perm)
  {
    hide Serial, Still, InRealTime, ChangersInOrder, StillInPlace, Began, HasPlace;
    forall id | id in n.txs ensures HasPlace(m, n.log, perm, n.txs[id]) {
      SameFits(m, n.log, perm, s.txs[id], n.txs[id]);
    }
  }

  lemma CommitLogs(s: System, id: nat)
    requires id in s.txs
    ensures var n := Next(s, Commit(id)); (n.log == s.log || n.log == s.log + [s.txs[id]]) && SameSnapshots(s, n)
    ensures s.log + [s.txs[id]] != s.log
  {
    assert |s.log + [s.txs[id]]| == |s.log| + 1;
  }

  lemma PlaceDirect(m: Database, s: System, k: Key, v: bytes, perm: seq<nat>)
    requires AllPlaced(m, s, perm)
    ensures AllPlaced(m, Next(s, Direct(k, v)), Insert(perm, |perm|, |s.log|))
  {
    hide Serial, InRealTime, ChangersInOrder, StillInPlace, Began, HasPlace;
    var n, t := Next(s, Direct(k, v)), Tx(s.db, map[k := Some(v)], [Write(k, v)], |s.log|);
    ReplayOne(s.db, t.trace[0]);
    AfterEnd(s.log, perm, t);
    assert Pick(s.log, perm)[..|perm|] == Pick(s.log, perm);
    Place(m, s, n, perm, |perm|, t);
  }

  lemma ReplayOne(m: Database, op: Op)
    ensures Replay(m, [op]) == Redo(m, op)
  {
    assert [op][..0] == [];
    assert Replay(m, [op]) == Redo(Replay(m, [op][..0]).value, op);
  }

  lemma PlaceBegin(m: Database, s: System, id: nat, perm: seq<nat>)
    requires AllPlaced(m, s, perm)
    ensures AllPlaced(m, Next(s, Begin(id)), perm)
  {
    hide Serial, InRealTime, ChangersInOrder, StillInPlace, Began;
    var n, t := Next(s, Begin(id)), Tx(s.db, map[], [], |s.log|);
    AfterEnd(s.log, perm, t);
    assert Pick(s.log, perm)[..|perm|] == Pick(s.log, perm);
    assert Fits(m, s.log, perm, t, |perm|);
  }

  lemma OtherSteps(s: System, a: Action)
    requires !a.Begin? && !a.Commit? && !a.Direct?
    ensures var n := Next(s, a); SameSnapshots(s, n) && n.log == s.log && n.db == s.db
  {
  }

  lemma PlaceNext(m: Database, s: System, a: Action, perm: seq<nat>) returns (r: seq<nat>)
    requires AllFaithful(s) && AllPlaced(m, s, perm)
    requires forall t :: t in Next(s, a).log ==> Orderly(t)
    ensures AllPlaced(m, Next(s, a), r)
  {
    hide Orderly, Faithful, AllPlaced;
    r := perm;
    match a {
      case Begin(id) => PlaceBegin(m, s, id, perm);
      case Commit(id) =>
        if id in s.txs {
          CommitLogs(s, id);
          var n := Next(s, a);
          if n.log != s.log { assert n.log[|s.log|] == s.txs[id]; }
          r := PlaceCommit(m, s, id, perm);
        }
      case Direct(k, v) =>
        PlaceDirect(m, s, k, v, perm);
        r := Insert(perm, |perm|, |s.log|);
      case _ =>
        OtherSteps(s, a);
        KeepPlaces(m, s, Next(s, a), perm);
    }
  }

  lemma LogIsKept(s: System, a: Action)
    ensures forall t :: t in s.log ==> t in Next(s, a).log
  {
  }

  /** Serializability. In any interleaving whose committed transactions each write what they read or
      leave their snapshot as it is, all of them, one after another in some order, give every
      answer they got and the state they left. The order keeps real time: none comes after one
      that began when it had committed. Transactions without writes, and others that leave
      their snapshot alone, stand where their snapshot is the state; the rest keep commit order. */
  lemma {:induction false} Serializable(db: Database, actions: seq<Action>) returns (perm: seq<nat>)
    requires forall t :: t in Run(db, actions).log ==> Orderly(t)
    ensures var s := Run(db, actions);
            && Explains(db, s, perm) && InRealTime(s.log, perm)
            && StillInPlace(db, Pick(s.log, perm)) && ChangersInOrder(s.log, perm)
    ensures AllPlaced(db, Run(db, actions), perm)
  {
    hide Run, Orderly;
    perm := PlaceRun(db, actions);
  }

  lemma {:induction false} PlaceRun(db: Database, actions: seq<Action>) returns (perm: seq<nat>)
    requires forall t :: t in Run(db, actions).log ==> Orderly(t)
    ensures AllPlaced(db, Run(db, actions), perm)
  {
    hide Orderly, Next, AllPlaced, AllFaithful;
    if actions == [] {
      PlaceNone(db);
      perm := [];
    } else {
      var before, a := actions[..|actions| - 1], actions[|actions| - 1];
      var s := Run(db, before);
      LogIsKept(s, a);
      perm := PlaceRun(db, before);
      RunFaithful(db, before);
      perm := PlaceNext(db, s, a, perm);
    }
  }

  lemma PlaceNone(db: Database)
    ensures AllPlaced(db, System(db, map[], []), [])
  {
  }

  // ----- commit order -----

  function Kept(log: seq<Tx>, drop: Tx -> bool): seq<Tx> {
    if log == [] then []
    else
      var before, t := Kept(log[..|log| - 1], drop), log[|log| - 1];
      if drop(t) then before else before + [t]
  }

  // Which transactions may be dropped from the commit order, and what the others must do.
  ghost predicate Droppable(t: Tx, drop: Tx -> bool) {
    if drop(t) then Still(t) else WritesWhatItReads(t.trace)
  }

  /** Leaving out any that leave their snapshot alone, such as all readers, the rest give the state
      that is left in the order of their commits. */
  lemma {:induction false} InCommitOrder(db: Database, actions: seq<Action>, drop: Tx -> bool)
    requires forall t :: t in Run(db, actions).log ==> Droppable(t, drop)
    ensures Serial(db, Kept(Run(db, actions).log, drop)) == Some(Run(db, actions).db)
  {
    hide Droppable, Next, Serial;
    if actions == [] {
      assert Serial(db, []) == Some(db) by { SerialNone(db); }
    } else {
      var before, a := actions[..|actions| - 1], actions[|actions| - 1];
      var s := Run(db, before);
      LogIsKept(s, a);
      InCommitOrder(db, before, drop);
      RunFaithful(db, before);
      CommitOrderStep(db, s, a, drop);
    }
  }

  lemma SerialNone(m: Database)
    ensures Serial(m, []) == Some(m)
  {
  }

  lemma KeptSnoc(log: seq<Tx>, t: Tx, drop: Tx -> bool)
    ensures Kept(log + [t], drop) == if drop(t) then Kept(log, drop) else Kept(log, drop) + [t]
  {
    assert (log + [t])[..|log|] == log;
  }

  lemma CommitOrderStep(db: Database, s: System, a: Action, drop: Tx -> bool)
    requires AllFaithful(s) && Serial(db, Kept(s.log, drop)) == Some(s.db)
    requires forall t :: t in Next(s, a).log ==> Droppable(t, drop)
    ensures Serial(db, Kept(Next(s, a).log, drop)) == Some(Next(s, a).db)
  {
    hide Serial, Faithful, WritesWhatItReads, Kept;
    var n := Next(s, a);
    if a.Commit? && a.id in s.txs {
      var t := s.txs[a.id];
      CommitLogs(s, a.id);
      CommitReplays(s, a.id);
      if n.log != s.log {
        assert n.log[|s.log|] == t && t in n.log && Droppable(t, drop);
        KeptSnoc(s.log, t, drop);
        SerialSnoc(db, Kept(s.log, drop), t);
        if drop(t) { StillCommit(s, a.id); }
      }
    } else if a.Direct? {
      var t := Tx(s.db, map[a.key := Some(a.value)], [Write(a.key, a.value)], |s.log|);
      assert n.log[|s.log|] == t && t in n.log && Droppable(t, drop);
      ReplayOne(s.db, t.trace[0]);
      KeptSnoc(s.log, t, drop);
      SerialSnoc(db, Kept(s.log, drop), t);
    }
  }

  // If all of them write what they read, that is all of them.
  lemma AllInCommitOrder(db: Database, actions: seq<Action>)
    requires forall t :: t in Run(db, actions).log ==> WritesWhatItReads(t.trace)
    ensures Serial(db, Run(db, actions).log) == Some(Run(db, actions).db)
  {
    InCommitOrder(db, actions, _ => false);
    KeptAll(Run(db, actions).log);
  }

  lemma {:induction false} KeptAll(log: seq<Tx>)
    ensures Kept(log, _ => false) == log
  {
    if log != [] {
      KeptAll(log[..|log| - 1]);
    }
  }

  // Transactions without writes leave their snapshot alone, so no more need be asked of a run than
  // that every committed transaction writes what it reads or does not write.
  lemma ReadersAreOrderly(db: Database, actions: seq<Action>)
    ensures forall t :: t in Run(db, actions).log && Writes(t.trace) == map[] ==> Still(t)
  {
    RunFaithful(db, actions);
    forall t | t in Run(db, actions).log && Writes(t.trace) == map[] ensures Still(t) {
      assert Faithful(t);
      SameLookups(t.base, Overlaid(t.base, t.overlay));
    }
  }

  // ----- no weaker condition will do -----

  // Some order of all committed transactions explains the run.
  ghost predicate Serializes(m: Database, s: System) {
    exists perm :: Explains(m, s, perm)
  }

  // Whatever orderly transactions it meets, one with this snapshot and these operations leaves the
  // run serializable.
  ghost predicate Safe(base: Database, ops: seq<Op>) {
    forall start: Database, actions: seq<Action> ::
      (forall u :: u in Run(start, actions).log ==> Orderly(u) || (u.base == base && u.trace == ops))
      ==> Serializes(start, Run(start, actions))
  }

  lemma RunSnoc(db: Database, actions: seq<Action>, a: Action)
    ensures Run(db, actions + [a]) == Next(Run(db, actions), a)
  {
    assert (actions + [a])[..|actions|] == actions;
  }

  function ToAction(id: nat, op: Op): Action {
    match op
    case Read(k, _) => Get(id, k)
    case Write(k, v) => Put(id, k, v)
    case Remove(k, _) => Del(id, k)
  }

  function ToActions(id: nat, ops: seq<Op>): seq<Action> {
    if ops == [] then [] else ToActions(id, ops[..|ops| - 1]) + [ToAction(id, ops[|ops| - 1])]
  }

  // Operations that can be done on a snapshot can be done by a transaction that has it.
  lemma {:induction false} Perform(db: Database, before: seq<Action>, id: nat, b: Database, ops: seq<Op>, began: nat)
    requires id in Run(db, before).txs && Run(db, before).txs[id] == Tx(b, map[], [], began) && Replay(b, ops).Some?
    ensures var s := Run(db, before);
            Run(db, before + ToActions(id, ops)) == s.(txs := s.txs[id := Tx(b, Writes(ops), ops, began)])
    decreases |ops|
  {
    hide Run, Replay, Writes, Next, Done;
    var s := Run(db, before);
    if ops == [] {
      assert before + ToActions(id, ops) == before;
      assert s.txs[id := s.txs[id]] == s.txs && Writes([]) == map[] by { OpsNone(b); }
    } else {
      var init, op := ops[..|ops| - 1], ops[|ops| - 1];
      OpsInit(b, ops);
      Perform(db, before, id, b, init, began);
      assert before + ToActions(id, ops) == before + ToActions(id, init) + [ToAction(id, op)];
      RunSnoc(db, before + ToActions(id, init), ToAction(id, op));
      assert ops == init + [op];
      PerformOne(b, init, op, began);
      NextIsDone(s.(txs := s.txs[id := Tx(b, Writes(init), init, began)]), id, op);
    }
  }

  lemma OpsNone(b: Database)
    ensures Writes([]) == map[]
  {
  }

  lemma OpsInit(b: Database, ops: seq<Op>)
    requires ops != [] && Replay(b, ops).Some?
    ensures Replay(b, ops[..|ops| - 1]).Some?
  {
  }

  function Done(t: Tx, op: Op): Tx {
    match op
    case Read(k, _) => TxGet(t, k)
    case Write(k, v) => TxSet(t, k, v)
    case Remove(k, _) => TxDelete(t, k)
  }

  lemma NextIsDone(s: System, id: nat, op: Op)
    requires id in s.txs
    ensures Next(s, ToAction(id, op)) == s.(txs := s.txs[id := Done(s.txs[id], op)])
  {
  }

  lemma PerformOne(b: Database, init: seq<Op>, op: Op, began: nat)
    requires Replay(b, init + [op]).Some?
    ensures Done(Tx(b, Writes(init), init, began), op) == Tx(b, Writes(init + [op]), init + [op], began)
  {
    assert (init + [op])[..|init|] == init;
    ReplayIsOverlay(b, init);
    assert Lookup(Replay(b, init).value, op.key) == Sees(b, Writes(init), op.key);
  }

  // Two transactions that begin together; the first commits, then the second.
  function Both(x: seq<Op>, y: seq<Op>): seq<Action> {
    [Begin(1)] + [Begin(2)] + ToActions(1, x) + ToActions(2, y) + [Commit(1)] + [Commit(2)]
  }

  function Fresh(db: Database, ops: seq<Op>): Tx {
    Tx(db, Writes(ops), ops, 0)
  }

  // Where the second writes, the first leaves the value as it was.
  ghost predicate Unseen(db: Database, x: seq<Op>, y: seq<Op>) {
    forall k :: k in Writes(y) && k in Writes(x) ==> Writes(x)[k] == Lookup(db, k)
  }

  lemma BothBegin(db: Database, x: seq<Op>, y: seq<Op>)
    requires Replay(db, x).Some? && Replay(db, y).Some?
    ensures var s := Run(db, [Begin(1)] + [Begin(2)] + ToActions(1, x) + ToActions(2, y));
            s == System(db, map[1 := Fresh(db, x), 2 := Fresh(db, y)], [])
  {
    hide Replay, Writes, ToActions;
    assert [] + [Begin(1)] == [Begin(1)];
    RunSnoc(db, [], Begin(1));
    RunSnoc(db, [Begin(1)], Begin(2));
    var start := [Begin(1)] + [Begin(2)];
    Perform(db, start, 1, db, x, 0);
    Perform(db, start + ToActions(1, x), 2, db, y, 0);
  }

  lemma BothCommit(db: Database, x: seq<Op>, y: seq<Op>)
    requires Replay(db, x).Some? && Replay(db, y).Some? && Unseen(db, x, y)
    ensures Run(db, Both(x, y)).log == [Fresh(db, x), Fresh(db, y)]
  {
    hide Run, Replay, Writes, ToActions;
    var before := [Begin(1)] + [Begin(2)] + ToActions(1, x) + ToActions(2, y);
    BothBegin(db, x, y);
    RunSnoc(db, before, Commit(1));
    RunSnoc(db, before + [Commit(1)], Commit(2));
    var m := Run(db, before + [Commit(1)]);
    assert m.log == [Fresh(db, x)] && m.txs == map[2 := Fresh(db, y)];
    assert Validates(db, m.db, Writes(y));
  }

  // Two committed transactions neither of whose orders can be replayed.
  lemma NeitherOrder(db: Database, s: System, x: Tx, y: Tx)
    requires s.log == [x, y] && Serial(db, [x, y]).None? && Serial(db, [y, x]).None?
    ensures !Serializes(db, s)
  {
    hide Serial, Permutes, Pick;
    forall perm | Permutes(perm, 2) ensures !Explains(db, s, perm) {
      PermuteTwo(perm);
      PermuteRange(perm, 2);
      assert Pick(s.log, perm) == if perm[0] == 0 then [x, y] else [y, x];
    }
  }

  lemma PermuteTwo(perm: seq<nat>)
    requires Permutes(perm, 2)
    ensures perm == [0, 1] || perm == [1, 0]
  {
    assert perm == [perm[0], perm[1]];
  }

  lemma SerialTwo(m: Database, x: Tx, y: Tx)
    ensures Serial(m, [x, y]) == if Replay(m, x.trace).None? then None else Replay(Replay(m, x.trace).value, y.trace)
  {
    assert [x, y] == [] + [x] + [y];
    SerialSnoc(m, [], x);
    SerialSnoc(m, [] + [x], y);
  }

  // ----- the transaction that spoils a disorderly one -----

  // It looks at `j`, writes it back as it was, and makes `k` appear or disappear.
  function Foe(db: Database, j: Key, k: Key): seq<Op> {
    [Read(j, Lookup(db, j))] + Restore(db, j) + Flip(db, k)
  }

  function Restore(db: Database, j: Key): seq<Op> {
    if j in db then [Write(j, db[j])] else [Write(j, [])] + [Remove(j, true)]
  }

  function Flip(db: Database, k: Key): seq<Op> {
    if k in db then [Remove(k, true)] else [Write(k, [])]
  }

  lemma {:induction false} ReplayConcat(m: Database, a: seq<Op>, b: seq<Op>)
    ensures Replay(m, a + b) == if Replay(m, a).None? then None else Replay(Replay(m, a).value, b)
    ensures Writes(a + b) == Writes(a) + Writes(b)
    ensures Asked(a + b) <= Asked(a) + Asked(b)
  {
    if b == [] {
      assert a + b == a;
    } else {
      var init := b[..|b| - 1];
      assert (a + b)[..|a + b| - 1] == a + init;
      ReplayConcat(m, a, init);
    }
  }

  lemma OneOp(m: Database, op: Op)
    ensures Replay(m, [op]) == Redo(m, op)
    ensures Asked([op]) == if op.Write? then {} else {op.key}
    ensures Writes([op]) == match op
                            case Read(_, _) => map[]
                            case Write(k, v) => map[k := Some(v)]
                            case Remove(k, ok) => if ok then map[k := None] else map[]
  {
    assert [op][..0] == [];
    ReplayOne(m, op);
  }

  lemma RestoreFacts(db: Database, j: Key)
    ensures Replay(db, Restore(db, j)) == Some(db)
    ensures Writes(Restore(db, j)) == map[j := Lookup(db, j)] && Asked(Restore(db, j)) <= {j}
  {
    hide Replay, Writes, Asked;
    if j in db {
      OneOp(db, Write(j, db[j]));
      assert db[j := db[j]] == db;
    } else {
      OneOp(db, Write(j, []));
      OneOp(db[j := []], Remove(j, true));
      ReplayConcat(db, [Write(j, [])], [Remove(j, true)]);
      assert db[j := []] - {j} == db;
    }
  }

  lemma FlipFacts(db: Database, k: Key)
    ensures Replay(db, Flip(db, k)) == Some(if k in db then db - {k} else db[k := []])
    ensures Writes(Flip(db, k)) == map[k := if k in db then None else Some([])] && Asked(Flip(db, k)) <= {k}
  {
    hide Replay, Writes, Asked;
    OneOp(db, if k in db then Remove(k, true) else Write(k, []));
  }

  lemma FoeFacts(db: Database, j: Key, k: Key)
    requires j != k
    ensures Replay(db, Foe(db, j, k)) == Some(if k in db then db - {k} else db[k := []])
    ensures Writes(Foe(db, j, k)) == map[j := Lookup(db, j), k := if k in db then None else Some([])]
    ensures WritesWhatItReads(Foe(db, j, k))
  {
    hide Replay, Writes, Asked, Restore, Flip;
    var look := Read(j, Lookup(db, j));
    OneOp(db, look);
    RestoreFacts(db, j);
    FlipFacts(db, k);
    ReplayConcat(db, [look], Restore(db, j));
    ReplayConcat(db, [look] + Restore(db, j), Flip(db, k));
  }

  // It cannot come after a change of `j`.
  lemma FoeSees(db: Database, m: Database, j: Key, k: Key)
    requires Lookup(m, j) != Lookup(db, j)
    ensures Replay(m, Foe(db, j, k)).None?
  {
    hide Replay, Restore, Flip;
    var look := Read(j, Lookup(db, j));
    OneOp(m, look);
    ReplayConcat(m, [look], Restore(db, j));
    ReplayConcat(m, [look] + Restore(db, j), Flip(db, k));
  }

  /** A transaction that asks for a key it does not write, and changes another: next to one orderly
      transaction, both commit and neither order explains them. */
  lemma DisorderlyFails(db: Database, ops: seq<Op>, j: Key, k: Key)
    requires Replay(db, ops).Some? && k in Asked(ops) && k !in Writes(ops)
    requires j in Writes(ops) && Writes(ops)[j] != Lookup(db, j)
    ensures var s := Run(db, Both(Foe(db, j, k), ops));
            && s.log == [Fresh(db, Foe(db, j, k)), Fresh(db, ops)]
            && Orderly(s.log[0]) && !Serializes(db, s)
  {
    hide Run, Serial, Foe, Both, Serializes;
    var foe := Foe(db, j, k);
    FoeFacts(db, j, k);
    BothCommit(db, foe, ops);
    var x, y := Fresh(db, foe), Fresh(db, ops);
    var flipped := Replay(db, foe).value;
    ReplayBreaks(db, flipped, ops, k);
    SerialTwo(db, x, y);
    var changed := Replay(db, ops).value;
    ReplayIsOverlay(db, ops);
    assert Lookup(changed, j) == Writes(ops)[j];
    FoeSees(db, changed, j, k);
    SerialTwo(db, y, x);
    NeitherOrder(db, Run(db, Both(foe, ops)), x, y);
  }

  // A transaction that does not leave its snapshot alone changes some key.
  lemma SomeChange(db: Database, ops: seq<Op>) returns (j: Key)
    requires Replay(db, ops).Some? && Replay(db, ops) != Some(db)
    ensures j in Writes(ops) && Writes(ops)[j] != Lookup(db, j)
  {
    ReplayIsOverlay(db, ops);
    var r := Replay(db, ops).value;
    if forall k :: Lookup(r, k) == Lookup(db, k) {
      SameLookups(r, db);
    }
    j :| Lookup(r, j) != Lookup(db, j);
  }

  /** The exact condition. A transaction is safe beside any orderly ones, in every run, if and only if
      it writes what it reads or leaves its snapshot as it found it. */
  lemma OrderlyIsExact(base: Database, ops: seq<Op>)
    requires Replay(base, ops).Some?
    ensures Safe(base, ops) <==> WritesWhatItReads(ops) || Replay(base, ops) == Some(base)
  {
    hide Run, Serializes, Both, Foe;
    if WritesWhatItReads(ops) || Replay(base, ops) == Some(base) {
      forall start: Database, actions: seq<Action> |
        forall u :: u in Run(start, actions).log ==> Orderly(u) || (u.base == base && u.trace == ops)
        ensures Serializes(start, Run(start, actions))
      {
        SerializesOrderly(start, actions);
      }
    } else {
      var k :| k in Asked(ops) && k !in Writes(ops);
      var j := SomeChange(base, ops);
      DisorderlyFails(base, ops, j, k);
      var s := Run(base, Both(Foe(base, j, k), ops));
      assert forall u :: u in s.log ==> Orderly(u) || (u.base == base && u.trace == ops);
    }
  }

  lemma SerializesOrderly(start: Database, actions: seq<Action>)
    requires forall u :: u in Run(start, actions).log ==> Orderly(u)
    ensures Serializes(start, Run(start, actions))
  {
    var perm := Serializable(start, actions);
    assert Explains(start, Run(start, actions), perm);
  }

  // ----- write skew -----

  function SkewTrace(db: Database, a: Key, b: Key, written: Key, v: bytes): seq<Op> {
    [Read(a, Lookup(db, a))] + [Read(b, Lookup(db, b))] + [Write(written, v)]
  }

  lemma SkewFacts(db: Database, a: Key, b: Key, written: Key, v: bytes)
    ensures var t := SkewTrace(db, a, b, written, v);
            && Replay(db, t) == Some(db[written := v]) && Writes(t) == map[written := Some(v)]
            && forall m :: Lookup(m, a) != Lookup(db, a) || Lookup(m, b) != Lookup(db, b) ==> Replay(m, t).None?
  {
    hide Replay, Writes, Asked;
    var x, y, z := Read(a, Lookup(db, a)), Read(b, Lookup(db, b)), Write(written, v);
    forall m: Database
      ensures Replay(m, [x] + [y] + [z]) ==
              if Lookup(m, a) == x.seen && Lookup(m, b) == y.seen then Some(m[written := v]) else None
      ensures Writes([x] + [y] + [z]) == map[written := Some(v)]
    {
      OneOp(m, x);
      OneOp(m, y);
      OneOp(m, z);
      ReplayConcat(m, [x], [y]);
      ReplayConcat(m, [x] + [y], [z]);
    }
  }

  /** The familiar case: on any database, two transactions that read two keys and write one each both
      commit, and neither order of the two explains what they saw. */
  lemma WriteSkew(db: Database, a: Key, b: Key, v: bytes)
    requires a != b && Lookup(db, a) != Some(v) && Lookup(db, b) != Some(v)
    ensures var x, y := SkewTrace(db, a, b, a, v), SkewTrace(db, a, b, b, v);
            var s := Run(db, Both(x, y));
            s.log == [Fresh(db, x), Fresh(db, y)] && !Serializes(db, s)
  {
    hide Run, Serial, SkewTrace, Both, Replay, Writes;
    var x, y := SkewTrace(db, a, b, a, v), SkewTrace(db, a, b, b, v);
    SkewFacts(db, a, b, a, v);
    SkewFacts(db, a, b, b, v);
    BothCommit(db, x, y);
    assert Lookup(db[a := v], a) == Some(v) && Lookup(db[b := v], b) == Some(v);
    SerialTwo(db, Fresh(db, x), Fresh(db, y));
    SerialTwo(db, Fresh(db, y), Fresh(db, x));
    NeitherOrder(db, Run(db, Both(x, y)), Fresh(db, x), Fresh(db, y));
  }
}
