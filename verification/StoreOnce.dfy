/** How much a commit writes and when it fits (`imustore/logical.py`, `imustore/physical.py`): what
    is stored already keeps its address and is not written again, every other value and node gets
    exactly one record, and storing fails for nothing but a record or a file too large for the
    format. */
module StoreOnce {
  import opened Bytes
  import opened BPlusTree
  import opened FileFormat
  import opened Persist
  import opened Recovery

  // ----- one record for each part not yet stored -----

  function UnsavedValues(vs: seq<ValueRef>): nat {
    if vs == [] then 0 else (if vs[0].addr == 0 then 1 else 0) + UnsavedValues(vs[1..])
  }

  // The values and nodes below `t` without an address, down to the first node that has one.
  function Unsaved(t: Tree): nat {
    if t.addr != 0 then 0
    else if t.Leaf? then UnsavedValues(t.values) + 1
    else UnsavedAll(t.children) + 1
  }

  function UnsavedAll(ts: seq<Tree>): nat {
    if ts == [] then 0 else Unsaved(ts[0]) + UnsavedAll(ts[1..])
  }

  // `u` is `t` with addresses given to what had none.
  predicate Kept(t: Tree, u: Tree) {
    if t.addr != 0 then u == t
    else
      && u.addr != 0 && u.keys == t.keys && (t.Leaf? <==> u.Leaf?)
      && (t.Leaf? ==> ValuesKept(t.values, u.values))
      && (t.Internal? ==>
            |u.children| == |t.children| && forall i :: 0 <= i < |t.children| ==> Kept(t.children[i], u.children[i]))
  }

  predicate ValuesKept(vs: seq<ValueRef>, ws: seq<ValueRef>) {
    && |ws| == |vs|
    && forall i :: 0 <= i < |vs| ==>
         ws[i].payload == vs[i].payload && ws[i].addr != 0 && (vs[i].addr != 0 ==> ws[i] == vs[i])
  }

  predicate AllKept(ts: seq<Tree>, us: seq<Tree>) {
    |us| == |ts| && forall i :: 0 <= i < |ts| ==> Kept(ts[i], us[i])
  }

  // The records of the payloads `ps`, one after the other.
  function Records(crc: Checksum, ps: seq<bytes>): bytes {
    if ps == [] then [] else Records(crc, ps[..|ps| - 1]) + Record(crc, ps[|ps| - 1])
  }

  lemma {:induction false} RecordsJoin(crc: Checksum, ps: seq<bytes>, qs: seq<bytes>)
    ensures Records(crc, ps + qs) == Records(crc, ps) + Records(crc, qs)
    decreases |qs|
  {
    hide Record;
    if qs == [] {
      assert ps + qs == ps;
    } else {
      var init, last := qs[..|qs| - 1], qs[|qs| - 1];
      RecordsJoin(crc, ps, init);
      assert (ps + qs)[..|ps + qs| - 1] == ps + init;
      Regroup(Records(crc, ps), Records(crc, init), Record(crc, last));
    }
  }

  lemma Regroup(a: bytes, b: bytes, c: bytes)
    ensures a + (b + c) == a + b + c
  {
  }

  // `g` is `f` with the records of `ps` after it.
  predicate Appends(crc: Checksum, f: bytes, ps: seq<bytes>, g: bytes) {
    g == f + Records(crc, ps)
  }

  lemma AppendsThen(crc: Checksum, f: bytes, ps: seq<bytes>, g: bytes, qs: seq<bytes>, h: bytes)
    requires Appends(crc, f, ps, g) && Appends(crc, g, qs, h)
    ensures Appends(crc, f, ps + qs, h)
  {
    hide Records;
    RecordsJoin(crc, ps, qs);
    Regroup(f, Records(crc, ps), Records(crc, qs));
  }

  lemma AppendIsOneRecord(c: Codec, f: bytes, payload: bytes)
    requires |f| >= SUPERBLOCK_SIZE && |payload| < LIMIT32
    ensures Append(c, f, payload).Some? && Append(c, f, payload).value.1 == |f|
    ensures Appends(c.crc, f, [payload], Append(c, f, payload).value.0)
  {
    hide Record;
    assert Records(c.crc, [payload]) == Records(c.crc, []) + Record(c.crc, payload);
    assert WriteAt(f, |f|, Record(c.crc, payload)) == f + Record(c.crc, payload);
  }

  lemma {:induction false} SaveValuesOnce(c: Codec, f: bytes, vs: seq<ValueRef>) returns (ps: seq<bytes>)
    requires |f| >= SUPERBLOCK_SIZE && SaveValues(c, f, vs).Some?
    ensures var (g, ws) := SaveValues(c, f, vs).value;
            && |ps| == UnsavedValues(vs) && Appends(c.crc, f, ps, g) && |g| >= |f|
            && ValuesKept(vs, ws)
    decreases |vs|
  {
    hide WriteAt, Record;
    ps := [];
    if vs != [] {
      var (g, w) := SaveValue(c, f, vs[0]).value;
      if vs[0].addr == 0 {
        AppendIsOneRecord(c, f, vs[0].payload);
        ps := [vs[0].payload];
      }
      var rest := SaveValuesOnce(c, g, vs[1..]);
      AppendsThen(c.crc, f, ps, g, rest, SaveValues(c, f, vs).value.0);
      ps := ps + rest;
    }
  }

  // Saving writes exactly one record for each part that had no address, after all that the file
  // held, and gives back the same tree with every stored part as it was.
  lemma {:induction false} SaveOnce(c: Codec, f: bytes, t: Tree) returns (ps: seq<bytes>)
    requires |f| >= SUPERBLOCK_SIZE && Save(c, f, t).Some?
    ensures var (g, u) := Save(c, f, t).value;
            && |ps| == Unsaved(t) && Appends(c.crc, f, ps, g) && |g| >= |f|
            && Kept(t, u) && (t.addr == 0 ==> u.addr < |g|)
    decreases t, 0
  {
    hide WriteAt, Record, Records;
    if t.addr != 0 {
      ps := [];
      assert Records(c.crc, []) == [] by { NoRecords(c.crc); }
    } else {
      var g, node;
      if t.Leaf? {
        ps := SaveValuesOnce(c, f, t.values);
        g, node := SaveValues(c, f, t.values).value.0, Leaf(0, t.keys, SaveValues(c, f, t.values).value.1);
      } else {
        ps := SaveAllOnce(c, f, t.children);
        g, node := SaveAll(c, f, t.children).value.0, Internal(0, t.keys, SaveAll(c, f, t.children).value.1);
      }
      var payload := c.encode(PayloadOf(node));
      AppendIsOneRecord(c, g, payload);
      AppendsThen(c.crc, f, ps, g, [payload], Save(c, f, t).value.0);
      OneRecordLong(c.crc, g, payload, Save(c, f, t).value.0);
      ps := ps + [payload];
    }
  }

  lemma NoRecords(crc: Checksum)
    ensures Records(crc, []) == []
  {
  }

  lemma OneRecordLong(crc: Checksum, f: bytes, p: bytes, g: bytes)
    requires Appends(crc, f, [p], g)
    ensures |g| == |f| + 8 + |p|
  {
    assert Records(crc, [p]) == Records(crc, []) + Record(crc, p);
  }

  lemma {:induction false} SaveAllOnce(c: Codec, f: bytes, ts: seq<Tree>) returns (ps: seq<bytes>)
    requires |f| >= SUPERBLOCK_SIZE && SaveAll(c, f, ts).Some?
    ensures var (g, us) := SaveAll(c, f, ts).value;
            |ps| == UnsavedAll(ts) && Appends(c.crc, f, ps, g) && |g| >= |f| && AllKept(ts, us)
    decreases ts, 1
  {
    hide Records, Kept;
    ps := [];
    NoRecords(c.crc);
    if ts != [] {
      ps := SaveOnce(c, f, ts[0]);
      var g := Save(c, f, ts[0]).value.0;
      var rest := SaveAllOnce(c, g, ts[1..]);
      AppendsThen(c.crc, f, ps, g, rest, SaveAll(c, f, ts).value.0);
      ps := ps + rest;
    }
  }

  // ----- when it fits -----

  // More than `n` records of the largest size can take.
  function Room(n: nat): nat {
    n * 0x1_0000_0008
  }

  lemma RoomAdds(m: nat, n: nat)
    ensures Room(m + n) == Room(m) + Room(n) && Room(0) == 0 && Room(1) == LIMIT32 + 8
  {
  }

  predicate ValueFits(v: ValueRef) {
    v.addr == 0 ==> |v.payload| < LIMIT32
  }

  // Whatever addresses its parts are given, the node's record is below 4 GiB.
  ghost predicate NodeFits(c: Codec, t: Tree) {
    forall p: Payload :: SameNode(t, p) ==> |c.encode(p)| < LIMIT32
  }

  predicate SameNode(t: Tree, p: Payload) {
    && p.keys == t.keys
    && match p
       case LeafRec(_, addrs) => t.Leaf? && |addrs| == |t.values| && forall a :: a in addrs ==> a < LIMIT64
       case NodeRec(_, addrs) => t.Internal? && |addrs| == |t.children| && forall a :: a in addrs ==> a < LIMIT64
  }

  // Everything still to be stored below `t` is small enough for a record.
  ghost predicate Fits(c: Codec, t: Tree) {
    t.addr == 0 ==>
      && NodeFits(c, t)
      && (t.Leaf? ==> forall v :: v in t.values ==> ValueFits(v))
      && (t.Internal? ==> forall u :: u in t.children ==> Fits(c, u))
  }

  ghost predicate AllFit(c: Codec, ts: seq<Tree>) {
    forall t :: t in ts ==> Fits(c, t)
  }

  predicate ValuesLow(vs: seq<ValueRef>, n: nat) {
    forall v :: v in vs ==> v.addr < n
  }

  predicate AllLow(ts: seq<Tree>, n: nat) {
    forall t :: t in ts ==> t.addr < n
  }

  lemma {:induction false} SaveValuesFits(c: Codec, f: bytes, vs: seq<ValueRef>)
    requires |f| >= SUPERBLOCK_SIZE && ValuesLow(vs, |f|) && forall v :: v in vs ==> ValueFits(v)
    ensures SaveValues(c, f, vs).Some?
    ensures var (g, ws) := SaveValues(c, f, vs).value;
            |f| <= |g| <= |f| + Room(UnsavedValues(vs)) && ValuesLow(ws, |g|)
    decreases |vs|
  {
    hide WriteAt, Records, Room, Record;
    RoomAdds(0, 0);
    if vs != [] {
      RoomAdds(1, UnsavedValues(vs[1..]));
      assert ValueFits(vs[0]);
      if vs[0].addr == 0 {
        AppendIsOneRecord(c, f, vs[0].payload);
        OneRecordLong(c.crc, f, vs[0].payload, SaveValue(c, f, vs[0]).value.0);
      }
      var g := SaveValue(c, f, vs[0]).value.0;
      SaveValuesFits(c, g, vs[1..]);
    }
  }

  lemma SaveNodeFits(c: Codec, f: bytes, t: Tree, u: Tree)
    requires |f| >= SUPERBLOCK_SIZE && |f| <= LIMIT64 && NodeFits(c, t) && SameNode(t, PayloadOf(u))
    ensures SaveNode(c, f, u).Some?
    ensures var (g, w) := SaveNode(c, f, u).value; |f| < |g| < |f| + Room(1) && w.addr < |g|
  {
    hide WriteAt, Records, Record;
    var payload := c.encode(PayloadOf(u));
    AppendIsOneRecord(c, f, payload);
    OneRecordLong(c.crc, f, payload, SaveNode(c, f, u).value.0);
  }

  // Storing succeeds whenever every part fits a record and the file stays below 2^64 bytes even
  // if each new record is of the largest size.
  lemma {:induction false} SaveFits(c: Codec, f: bytes, t: Tree)
    requires |f| >= SUPERBLOCK_SIZE && Backed(c, f, t) && Fits(c, t)
    requires |f| + Room(Unsaved(t)) <= LIMIT64
    ensures Save(c, f, t).Some?
    ensures var (g, u) := Save(c, f, t).value; |f| <= |g| <= |f| + Room(Unsaved(t)) && u.addr < |g|
    decreases t, 0
  {
    hide NodeFits, SaveNode, Room, Records;
    RoomAdds(0, 0);
    if t.addr != 0 {
    } else if t.Leaf? {
      forall v | v in t.values ensures v.addr < |f| {
        assert ValueBacked(c, f, v);
      }
      RoomAdds(UnsavedValues(t.values), 1);
      SaveValuesFits(c, f, t.values);
      var (g, vs) := SaveValues(c, f, t.values).value;
      var ps := SaveValuesOnce(c, f, t.values);
      SaveNodeFits(c, g, t, Leaf(0, t.keys, vs));
    } else {
      RoomAdds(UnsavedAll(t.children), 1);
      SaveAllFits(c, f, t.children);
      var (g, ts) := SaveAll(c, f, t.children).value;
      var ps := SaveAllOnce(c, f, t.children);
      SaveNodeFits(c, g, t, Internal(0, t.keys, ts));
    }
  }

  lemma {:induction false} SaveAllFits(c: Codec, f: bytes, ts: seq<Tree>)
    requires |f| >= SUPERBLOCK_SIZE && AllBacked(c, f, ts) && AllFit(c, ts)
    requires |f| + Room(UnsavedAll(ts)) <= LIMIT64
    ensures SaveAll(c, f, ts).Some?
    ensures var (g, us) := SaveAll(c, f, ts).value;
            |f| <= |g| <= |f| + Room(UnsavedAll(ts)) && AllLow(us, |g|)
    decreases ts, 1
  {
    hide Fits, Records, Room;
    RoomAdds(0, 0);
    if ts != [] {
      RoomAdds(Unsaved(ts[0]), UnsavedAll(ts[1..]));
      SaveFits(c, f, ts[0]);
      var (g, u) := Save(c, f, ts[0]).value;
      var ps := SaveOnce(c, f, ts[0]);
      assert f <= g;
      PrefixExtends(f, g);
      AllFrame(c, f, g, ts[1..]);
      SaveAllFits(c, g, ts[1..]);
    }
  }

  // A value of 4 GiB or more is never stored.
  predicate ValuesFit(t: Tree) {
    t.addr == 0 ==>
      && (t.Leaf? ==> forall v :: v in t.values ==> ValueFits(v))
      && (t.Internal? ==> forall u :: u in t.children ==> ValuesFit(u))
  }

  lemma {:induction false} SavedValuesFit(c: Codec, f: bytes, vs: seq<ValueRef>)
    requires SaveValues(c, f, vs).Some?
    ensures forall v :: v in vs ==> ValueFits(v)
    decreases |vs|
  {
    if vs != [] {
      SavedValuesFit(c, SaveValue(c, f, vs[0]).value.0, vs[1..]);
      assert forall v :: v in vs ==> v == vs[0] || v in vs[1..];
    }
  }

  lemma {:induction false} SavedFits(c: Codec, f: bytes, t: Tree)
    requires Save(c, f, t).Some?
    ensures ValuesFit(t)
    decreases t, 0
  {
    if t.addr != 0 {
    } else if t.Leaf? {
      SavedValuesFit(c, f, t.values);
    } else {
      SavedAllFit(c, f, t.children);
    }
  }

  lemma {:induction false} SavedAllFit(c: Codec, f: bytes, ts: seq<Tree>)
    requires SaveAll(c, f, ts).Some?
    ensures forall t :: t in ts ==> ValuesFit(t)
    decreases ts, 1
  {
    if ts != [] {
      SavedFits(c, f, ts[0]);
      SavedAllFit(c, Save(c, f, ts[0]).value.0, ts[1..]);
      assert forall t :: t in ts ==> t == ts[0] || t in ts[1..];
    }
  }

  // The commit of a reachable state succeeds if what is to be stored fits, and then its meta block
  // is the next transaction's, in the other slot, with the number of keys and the length of the
  // file.
  lemma CommitFits(c: Codec, order: nat, s: Sim)
    requires Inv(c, order, s) && s.db.meta.txn + 1 < LIMIT64 && |s.model| < LIMIT64
    requires var root := s.db.tree.root;
             && (root.Some? ==> Fits(c, root.value))
             && |s.db.file| + Room(if root.Some? then Unsaved(root.value) else 0) < LIMIT64
    ensures Prepare(c, s.db).Some?
    ensures var (g, m) := Prepare(c, s.db).value;
            s.db.file <= g && m == Meta(s.db.meta.txn + 1, m.root, |s.model|, |g|, 1 - s.db.meta.slot)
  {
    hide ReadSlot, BestMeta, Holds, Fits, Room, Records, Save;
    HoldsLong(c, order, s.db.file, s.db.meta, s.committed[|s.committed| - 1]);
    RoomAdds(0, 0);
    var root := s.db.tree.root;
    if root.Some? {
      SaveFits(c, s.db.file, root.value);
      var ps := SaveOnce(c, s.db.file, root.value);
    }
  }

  // It fails if a value does not fit.
  lemma OversizedFails(c: Codec, db: Db)
    requires db.tree.root.Some? && !ValuesFit(db.tree.root.value)
    ensures Prepare(c, db).None?
  {
    if Save(c, db.file, db.tree.root.value).Some? {
      SavedFits(c, db.file, db.tree.root.value);
    }
  }
}
