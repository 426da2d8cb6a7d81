/** The storage layer over a disk (`imustore/physical.py`), with the commit of a tree on top of it
    (`imustore/logical.py`): methods that seek, read, write and flush, proved to do what the
    functions of `FileFormat`, `Persist` and `Recovery` say. */
module StorageLayer {
  import opened Prelude
  import opened Bytes
  import opened BPlusTree
  import opened FileFormat
  import opened Persist
  import opened Recovery
  import opened Disk

  datatype Outcome = Done | Crashed | Failed

  class Storage {
    const disk: SimDisk
    const codec: Codec
    var meta: Meta

    constructor (d: SimDisk, c: Codec)
      ensures disk == d && codec == c && meta == EMPTY_META
    {
      disk, codec, meta := d, c, EMPTY_META;
    }

    method ReadSlot(index: nat) returns (r: SlotRead)
      modifies disk`pos
      ensures r == FileFormat.ReadSlot(codec.crc, disk.live, index)
    {
      disk.Seek(index * META_SLOT_SIZE);
      var raw := disk.Read(META_BODY_BYTES + META_CRC_BYTES);
      if |raw| < META_BODY_BYTES + META_CRC_BYTES {
        return Nothing;
      }
      assert raw == SlotBytes(disk.live, index);
      r := ParseSlot(codec.crc, raw, index);
    }

    // The first of the valid slots with the highest transaction id.
    method ReadBestMeta() returns (best: Option<Meta>)
      modifies disk`pos
      ensures best == BestMeta(codec.crc, disk.live)
    {
      hide FileFormat.ReadSlot;
      best := None;
      for i := 0 to 2
        invariant forall j :: 0 <= j < i ==> !FileFormat.ReadSlot(codec.crc, disk.live, j).BadVersion?
        invariant i == 0 ==> best == None
        invariant i == 1 ==> best == Metas(FileFormat.ReadSlot(codec.crc, disk.live, 0))
        invariant i == 2 ==> best == BestMeta(codec.crc, disk.live)
      {
        var r := ReadSlot(i);
        if r.BadVersion? {
          return None;
        }
        if r.Found? && (best.None? || r.meta.txn > best.value.txn) {
          best := Some(r.meta);
        }
      }
    }

    // False is the `struct.error` of a field that does not fit.
    method WriteSlot(index: nat, m: Meta) returns (ok: bool)
      modifies disk`live, disk`pos
      ensures ok <==> Encodable(m)
      ensures disk.live == if ok then FileFormat.WriteSlot(codec.crc, old(disk.live), index, m) else old(disk.live)
    {
      if !Encodable(m) {
        return false;
      }
      var block := MetaBody(m) + Pack(codec.crc(MetaBody(m)), META_CRC_BYTES);
      block := block + Zeros(META_SLOT_SIZE - |block|);
      disk.Seek(index * META_SLOT_SIZE);
      disk.Write(block);
      return true;
    }

    // Initialise a new file, or recover an old one: choose the best slot and cut off what its
    // commit did not own.
    method EnsureMeta() returns (r: Outcome)
      modifies this`meta, disk
      ensures r == Failed <==> Opened(codec.crc, old(disk.live)) == None
      ensures r != Failed ==> Some(disk.live) == Opened(codec.crc, old(disk.live))
      ensures r == Done && old(disk.live) == old(disk.durable) ==> disk.durable == disk.live
      ensures r != Done ==> disk.durable == old(disk.durable)
      ensures r == Crashed <==> old(disk.FailsWithin(1)) && Recovers(codec.crc, old(disk.live))
      ensures r == Done ==>
                Some(meta) == if |old(disk.live)| < SUPERBLOCK_SIZE then Some(EMPTY_META)
                    else BestMeta(codec.crc, old(disk.live))
    {
      var size := disk.SeekEnd();
      if size < SUPERBLOCK_SIZE {
        r := InitMeta();
        return;
      }
      var best := ReadBestMeta();
      if best.None? {
        return Failed;
      }
      meta := best.value;
      size := disk.SeekEnd();
      if size > meta.dataLength {
        disk.Truncate(meta.dataLength);
        var ok := disk.Flush();
        if !ok {
          return Crashed;
        }
      }
      return Done;
    }

    method InitMeta() returns (r: Outcome)
      modifies this`meta, disk
      ensures r != Failed && disk.live == InitFile(codec.crc, old(disk.live))
      ensures r == Crashed <==> old(disk.FailsWithin(1))
      ensures r == Done ==> disk.durable == disk.live && meta == EMPTY_META
      ensures r == Crashed ==> disk.durable == old(disk.durable)
    {
      var ok := WriteSlot(0, EMPTY_META);
      ok := WriteSlot(1, EMPTY_META);
      disk.Truncate(SUPERBLOCK_SIZE);
      ok := disk.Flush();
      if !ok {
        return Crashed;
      }
      meta := EMPTY_META;
      return Done;
    }

    // Flush the records, write the other slot, flush again. The commit takes effect exactly when
    // the numbers fit the format and neither flush is the armed one. A crash at the first flush
    // leaves what was durable, a crash at the second leaves the records without the slot.
    method CommitRoot(root: nat, count: nat) returns (r: Outcome, m: Meta)
      requires meta.slot <= 1
      modifies this`meta, disk
      ensures m == Meta(old(meta).txn + 1, root, count, |old(disk.live)|, 1 - old(meta).slot)
      ensures r == Done <==> Encodable(m) && !old(disk.FailsWithin(2))
      ensures r == Crashed <==> old(disk.FailsWithin(1)) || (Encodable(m) && old(disk.FailsWithin(2)))
      ensures if r == Done then meta == m else meta == old(meta)
      ensures r == Done ==> disk.durable == disk.live == FileFormat.WriteSlot(codec.crc, old(disk.live), m.slot, m)
      ensures r == Failed ==> disk.durable == disk.live == old(disk.live)
      ensures r == Crashed ==>
                disk.durable == if old(disk.FailsWithin(1)) then old(disk.durable) else old(disk.live)
    {
      m := Meta(meta.txn + 1, root, count, |disk.live|, 1 - meta.slot);
      var ok := disk.Flush();
      if !ok {
        return Crashed, m;
      }
      ok := WriteSlot(m.slot, m);
      if !ok {
        return Failed, m;
      }
      ok := disk.Flush();
      if !ok {
        return Crashed, m;
      }
      meta := m;
      return Done, m;
    }

    // Append a record and give its address; None is `struct.error`.
    method Write(payload: bytes) returns (address: Option<nat>)
      modifies disk`live, disk`pos
      ensures address.None? <==> Append(codec, old(disk.live), payload).None?
      ensures address.None? ==> disk.live == old(disk.live)
      ensures address.Some? ==> Append(codec, old(disk.live), payload) == Some((disk.live, address.value))
    {
      var size := disk.SeekEnd();
      var a := Max(size, SUPERBLOCK_SIZE);
      disk.Seek(a);
      if |payload| >= LIMIT32 {
        return None;
      }
      var header := Pack(|payload|, 4) + Pack(codec.crc(payload), 4);
      ghost var f := disk.live;
      disk.Write(header);
      disk.Write(payload);
      assert disk.live == WriteAt(f, a, Record(codec.crc, payload)) by {
        WriteTwice(f, a, header, payload);
      }
      return Some(a);
    }

    method Read(address: nat) returns (payload: Option<bytes>)
      modifies disk`pos
      ensures payload == ReadRecord(codec.crc, disk.live, address)
    {
      if address <= 0 {
        return None;
      }
      disk.Seek(address);
      var header := disk.Read(RECORD_HEADER_BYTES);
      if |header| != RECORD_HEADER_BYTES {
        return None;
      }
      assert header == disk.live[address..address + 8];
      assert header[..4] == disk.live[address..address + 4] && header[4..] == disk.live[address + 4..address + 8];
      var length, stored := Unpack(header[..4]), Unpack(header[4..]);
      var data := disk.Read(length);
      if |data| != length || codec.crc(data) != stored {
        return None;
      }
      return Some(data);
    }

    // ----- storing a tree -----

    method StoreValues(vs: seq<ValueRef>) returns (ws: Option<seq<ValueRef>>)
      modifies disk`live, disk`pos
      ensures ws.None? <==> SaveValues(codec, old(disk.live), vs).None?
      ensures ws.Some? ==> SaveValues(codec, old(disk.live), vs) == Some((disk.live, ws.value))
    {
      var done := [];
      ghost var f := disk.live;
      assert vs[0..] == vs;
      BeforeNothing(SaveValues(codec, f, vs));
      for i := 0 to |vs|
        invariant |done| == i
        invariant SaveValues(codec, f, vs) == Before(done, SaveValues(codec, disk.live, vs[i..]))
      {
        assert vs[i..][1..] == vs[i + 1..] && vs[i..][0] == vs[i];
        var v := vs[i];
        if v.addr == 0 {
          var a := Write(v.payload);
          if a.None? {
            return None;
          }
          v := v.(addr := a.value);
        }
        BeforeSnoc(done, v, SaveValues(codec, disk.live, vs[i + 1..]));
        done := done + [v];
      }
      assert vs[|vs|..] == [] && done + [] == done;
      return Some(done);
    }

    // Store what is not stored yet, children before parents.
    method Store(t: Tree) returns (u: Option<Tree>)
      modifies disk`live, disk`pos
      ensures u.None? <==> Save(codec, old(disk.live), t).None?
      ensures u.Some? ==> Save(codec, old(disk.live), t) == Some((disk.live, u.value))
      decreases t, 0
    {
      hide Append, PayloadOf;
      if t.addr != 0 {
        return Some(t);
      }
      var node: Tree;
      if t.Leaf? {
        var vs := StoreValues(t.values);
        if vs.None? {
          return None;
        }
        node := Leaf(0, t.keys, vs.value);
      } else {
        var ts := StoreAll(t.children);
        if ts.None? {
          return None;
        }
        node := Internal(0, t.keys, ts.value);
      }
      var a := Write(codec.encode(PayloadOf(node)));
      if a.None? {
        return None;
      }
      return Some(node.(addr := a.value));
    }

    method StoreAll(ts: seq<Tree>) returns (us: Option<seq<Tree>>)
      modifies disk`live, disk`pos
      ensures us.None? <==> SaveAll(codec, old(disk.live), ts).None?
      ensures us.Some? ==> SaveAll(codec, old(disk.live), ts) == Some((disk.live, us.value))
      decreases ts, 1
    {
      hide Save;
      var done := [];
      ghost var f := disk.live;
      assert ts[0..] == ts;
      BeforeNothing(SaveAll(codec, f, ts));
      for i := 0 to |ts|
        invariant |done| == i
        invariant SaveAll(codec, f, ts) == Before(done, SaveAll(codec, disk.live, ts[i..]))
      {
        assert ts[i..][1..] == ts[i + 1..] && ts[i..][0] == ts[i];
        var u := Store(ts[i]);
        if u.None? {
          return None;
        }
        BeforeSnoc(done, u.value, SaveAll(codec, disk.live, ts[i + 1..]));
        done := done + [u.value];
      }
      assert ts[|ts|..] == [] && done + [] == done;
      return Some(done);
    }

    /** Commit the tree of `db`. Without a power loss it ends with the published file durable
        exactly when the model can prepare one. If it ends otherwise, the durable file is the one
        before, or that with the records of the commit and no slot to publish them; after a power
        loss it is one of the images the model allows a crash to leave. */
    method Commit(db: Db) returns (r: Outcome)
      requires disk.live == disk.durable == db.file && meta == db.meta && meta.slot <= 1
      requires |db.file| >= SUPERBLOCK_SIZE && db.tree.count >= 0
      modifies this`meta, disk
      ensures r == Done <==> Prepare(codec, db).Some? && !old(disk.FailsWithin(2))
      ensures r == Crashed <==>
                && SavedFile(codec, db).Some?
                && old(if Prepare(codec, db).Some? then disk.FailsWithin(2) else disk.FailsWithin(1))
      ensures r == Done ==>
                && disk.live == disk.durable == Published(codec, Prepare(codec, db).value)
                && meta == Prepare(codec, db).value.1
      ensures r != Done ==>
                if SavedFile(codec, db).None? || old(disk.FailsWithin(1)) then disk.durable == db.file
                else Some(disk.durable) == SavedFile(codec, db)
      ensures r == Crashed ==>
                forall s: Sim :: s.db == db ==>
                  || Enabled(codec, s, Crash(Lost(disk.durable)))
                  || Enabled(codec, s, Crash(Torn(disk.durable)))
    {
      hide FileFormat.ReadSlot, FileFormat.WriteSlot, Save;
      var root := 0;
      if db.tree.root.Some? {
        var u := Store(db.tree.root.value);
        if u.None? {
          return Failed;
        }
        root := u.value.addr;
      }
      var m;
      r, m := CommitRoot(root, db.tree.count);
    }
  }

  // Whether opening the file has something to write: a superblock, or the cut of a torn tail.
  predicate Recovers(crc: Checksum, f: bytes) {
    |f| < SUPERBLOCK_SIZE || (BestMeta(crc, f).Some? && |f| > BestMeta(crc, f).value.dataLength)
  }

  // The file with the records of a commit.
  function SavedFile(c: Codec, db: Db): Option<bytes> {
    var r := SaveRoot(c, db.file, db.tree.root);
    if r.None? then None else Some(r.value.0)
  }

  function Metas(r: SlotRead): Option<Meta> {
    if r.Found? then Some(r.meta) else None
  }

  function Before<T>(done: seq<T>, rest: Option<(bytes, seq<T>)>): Option<(bytes, seq<T>)> {
    if rest.None? then None else Some((rest.value.0, done + rest.value.1))
  }

  lemma BeforeNothing<T>(rest: Option<(bytes, seq<T>)>)
    ensures Before([], rest) == rest
  {
    if rest.Some? {
      assert [] + rest.value.1 == rest.value.1;
    }
  }

  lemma BeforeSnoc<T>(done: seq<T>, x: T, rest: Option<(bytes, seq<T>)>)
    ensures Before(done, Before([x], rest)) == Before(done + [x], rest)
  {
    if rest.Some? {
      assert done + ([x] + rest.value.1) == done + [x] + rest.value.1;
    }
  }

  lemma WriteTwice(f: bytes, a: nat, x: bytes, y: bytes)
    requires |f| <= a
    ensures WriteAt(WriteAt(f, a, x), a + |x|, y) == WriteAt(f, a, x + y)
  {
  }
}
