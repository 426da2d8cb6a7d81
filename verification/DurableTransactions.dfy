/** A transaction's commit down to the disk (`imustore/interface.py` over `imustore/logical.py` and
    `imustore/physical.py`): check, apply to the tree, store the tree, publish its root. What is
    durable afterwards opens as the state after if the commit is reported done, as the state before
    if not, and never as part of one. */
module DurableTransactions {
  import opened Prelude
  import opened Bytes
  import opened KeyOrder
  import opened BPlusTheorems
  import opened BPlusIndex
  import opened FileFormat
  import opened Persist
  import opened PersistTree
  import opened Recovery
  import S = StorageLayer
  import T = Transactions

  // The handle as a state of the storage simulation with one commit behind it.
  function AsSim(file: bytes, meta: Meta, tree: State, model: map<Key, bytes>, last: map<Key, bytes>): Sim {
    Sim(Db(file, meta, tree), model, [last])
  }

  // Nothing is staged: the durable file holds the tree in memory.
  ghost predicate Settled(index: Index, storage: S.Storage)
    reads index, storage, storage.disk
  {
    && index.Valid() && storage.disk.live == storage.disk.durable && Lossless(storage.codec)
    && Inv(storage.codec, index.order,
           AsSim(storage.disk.durable, storage.meta, State(index.root, index.count), index.Contents(),
               index.Contents()))
  }

  // The file opens as a well-formed tree of that map.
  ghost predicate OpensAs(c: Codec, order: nat, file: bytes, model: map<Key, bytes>) {
    OpenDb(c, file).Some? && Refines(order, OpenDb(c, file).value.tree, model)
  }

  function Effects(m: map<Key, bytes>, ops: seq<Op>): map<Key, bytes> {
    if ops == [] then m else Effect(Effects(m, ops[..|ops| - 1]), ops[|ops| - 1])
  }

  // Staging operations keeps what is durable and what it stands for.
  lemma {:induction false} StageOK(c: Codec, order: nat, s: Sim, ops: seq<Op>)
    requires Inv(c, order, s) && forall op :: op in ops ==> IsRank(op.key)
    ensures GoodRoot(order, s.db.tree.root)
    ensures Inv(c, order, s.(db := s.db.(tree := Steps(order, s.db.tree, ops)), model := Effects(s.model, ops)))
  {
    hide Inv, Step, Effect, IsRank, GoodRoot;
    InvGood(c, order, s);
    if ops == [] {
      assert s.(db := s.db.(tree := Steps(order, s.db.tree, ops)), model := Effects(s.model, ops)) == s;
    } else {
      var before, op := ops[..|ops| - 1], ops[|ops| - 1];
      StageOK(c, order, s, before);
      var mid := s.(db := s.db.(tree := Steps(order, s.db.tree, before)), model := Effects(s.model, before));
      InvGood(c, order, mid);
      DoOK(c, order, mid, op);
    }
  }

  lemma InvGood(c: Codec, order: nat, s: Sim)
    requires Inv(c, order, s)
    ensures GoodRoot(order, s.db.tree.root) && Refines(order, s.db.tree, s.model)
    ensures SUPERBLOCK_SIZE <= |s.db.file| && s.db.meta.slot <= 1 && |s.committed| >= 1
  {
    hide ReadSlot, BestMeta, RootAt;
  }

  // Only the last commit counts for what follows.
  lemma InvLast(c: Codec, order: nat, s: Sim)
    requires Inv(c, order, s)
    ensures Inv(c, order, s.(committed := [s.committed[|s.committed| - 1]]))
  {
    hide ReadSlot, BestMeta, Holds, RootBacked, RootRanked, Refines;
  }

  lemma RecoveredIs(c: Codec, order: nat, s: Sim, fault: Fault)
    requires |s.committed| == 1 && !fault.Corrupted?
    requires Recover(c, order, s, fault).Some? && Inv(c, order, Recover(c, order, s, fault).value)
    ensures OpensAs(c, order, fault.image, s.committed[0]) || OpensAs(c, order, fault.image, s.model)
    ensures fault.Lost? ==> OpensAs(c, order, fault.image, s.committed[0])
  {
    hide ReadSlot, BestMeta, Holds, RootBacked, RootRanked, OpenDb, Prepare;
  }

  // On a disk that may keep part of what was not flushed, a crash of the commit leaves the state
  // before or the state after.
  lemma CrashIsAtomic(c: Codec, order: nat, s: Sim, image: bytes)
    requires Lossless(c) && Inv(c, order, s) && |s.committed| == 1
    requires Enabled(c, s, Crash(Lost(image))) || Enabled(c, s, Crash(Torn(image)))
    ensures OpensAs(c, order, image, s.committed[0]) || OpensAs(c, order, image, s.model)
  {
    hide Inv, Recover, OpensAs, Lossless;
    if Enabled(c, s, Crash(Lost(image))) {
      LostOK(c, order, s, image);
      RecoveredIs(c, order, s, Lost(image));
    } else {
      TornOK(c, order, s, image);
      RecoveredIs(c, order, s, Torn(image));
    }
  }

  // Records without a slot to publish them leave the state before.
  lemma UnpublishedIsBefore(c: Codec, order: nat, s: Sim, image: bytes)
    requires Lossless(c) && Inv(c, order, s) && |s.committed| == 1
    requires image == s.db.file || Some(image) == S.SavedFile(c, s.db)
    ensures OpensAs(c, order, image, s.committed[0])
  {
    hide Recover, OpensAs, Lossless, ReadSlot, BestMeta, Holds, Refines;
    InvGood(c, order, s);
    if Some(image) == S.SavedFile(c, s.db) && s.db.tree.root.Some? {
      SaveOK(c, s.db.file, s.db.tree.root.value);
    }
    LostOK(c, order, s, image);
    RecoveredIs(c, order, s, Lost(image));
  }

  // What a published file is refreshed to is a settled handle.
  lemma PublishedIsSettled(c: Codec, order: nat, s: Sim)
    requires Lossless(c) && Inv(c, order, s) && Prepare(c, s.db).Some?
    ensures var p := Prepare(c, s.db).value;
            var db := Refresh(c, Published(c, p));
            db.Some? && db.value.meta == p.1
                && Inv(c, order, AsSim(Published(c, p), p.1, db.value.tree, s.model, s.model))
  {
    hide ReadSlot, BestMeta, Holds, RootBacked, RootRanked, Prepare, Published, Lossless;
    CommitOK(c, order, s);
    var n := Next(c, order, s, Action.Commit).value;
    InvLast(c, order, n);
    PublishedMeta(c, order, s);
  }

  lemma PublishedMeta(c: Codec, order: nat, s: Sim)
    requires Lossless(c) && Inv(c, order, s) && Prepare(c, s.db).Some?
    ensures var p := Prepare(c, s.db).value; BestMeta(c.crc, Published(c, p)) == Some(p.1)
  {
    hide ReadSlot, BestMeta, Holds, RootBacked, RootRanked, Published, SaveRoot, TornImage, Refines;
    InvGood(c, order, s);
    PrepareOK(c, order, s.db, s.model);
    PublishedIsTorn(c, Prepare(c, s.db).value);
    TornHolds(c, order, s, Published(c, Prepare(c, s.db).value));
  }

  datatype Outcome = NoWrites | Conflict | Durable | Crashed | Failed

  /** Commit a transaction. If it is reported durable, the durable file and the tree hold the overlay
      over what they held. If it conflicts or there is nothing to write, nothing has changed. If
      power was lost, or a record or number does not fit the format, the durable file opens as
      the map before. */
  method CommitDurably(tx: T.Transaction, storage: S.Storage) returns (r: Outcome, ghost ops: seq<Op>)
    requires tx.Open() && Settled(tx.index, storage) && forall k :: k in tx.overlay ==> IsRank(k)
    modifies tx, tx.index, storage, storage.disk
    ensures r == NoWrites <==> old(tx.overlay) == map[]
    ensures r == Conflict <==>
              && old(tx.overlay) != map[]
              && !T.Validates(old(tx.base.Contents()), old(tx.index.Contents()), old(tx.overlay))
    ensures r in {NoWrites, Conflict} ==>
              && Settled(tx.index, storage)
              && tx.index.root == old(tx.index.root) && unchanged(storage, storage.disk)
    ensures r in {Durable, Crashed, Failed} ==>
              var c, order, disk := storage.codec, tx.index.order, storage.disk;
              var tree := old(State(tx.index.root, tx.index.count));
              && GoodRoot(order, tree.root)
              && Effects(old(tx.index.Contents()), ops) == T.Overlaid(old(tx.index.Contents()), old(tx.overlay))
              && (r == Durable <==>
                    && Prepare(c, Db(old(disk.live), old(storage.meta), Steps(order, tree, ops))).Some?
                    && !old(disk.FailsWithin(2)))
              && (r == Crashed ==> old(disk.FailsWithin(2)))
    ensures r == Durable ==>
              && Settled(tx.index, storage)
              && tx.index.Contents() == T.Overlaid(old(tx.index.Contents()), old(tx.overlay))
    ensures r in {Crashed, Failed} ==>
              OpensAs(storage.codec, tx.index.order, storage.disk.durable, old(tx.index.Contents()))
  {
    hide Inv, OpensAs, IsRank, Lossless, Index.Contents;
    var index := tx.index;
    ghost var c, order, before := storage.codec, index.order, index.Contents();
    ghost var start := AsSim(storage.disk.durable, storage.meta, State(index.root, index.count), before, before);
    var o;
    o, ops := tx.Commit();
    if o != T.Published {
      Refreshed(c, order, start, index);
      r := if o == T.Nothing then NoWrites else Conflict;
      return;
    }
    StageOK(c, order, start, ops);
    ghost var s := AsSim(storage.disk.live, storage.meta, State(index.root, index.count), Effects(before, ops), before);
    Refreshed(c, order, s, index);
    r := Publish(index, storage, before);
  }

  // Store the tree and publish its root; `last` is what the durable file holds so far.
  method Publish(index: Index, storage: S.Storage, ghost last: map<Key, bytes>) returns (r: Outcome)
    requires index.Valid() && storage.disk.live == storage.disk.durable && Lossless(storage.codec)
    requires Inv(storage.codec, index.order,
                 AsSim(storage.disk.durable, storage.meta, State(index.root, index.count), index.Contents(), last))
    modifies index, storage, storage.disk
    ensures r in {Durable, Crashed, Failed}
    ensures var db := old(Db(storage.disk.live, storage.meta, State(index.root, index.count)));
            && (r == Durable <==> Prepare(storage.codec, db).Some? && !old(storage.disk.FailsWithin(2)))
            && (r == Crashed ==> old(storage.disk.FailsWithin(2)))
    ensures r == Durable ==> Settled(index, storage) && index.Contents() == old(index.Contents())
    ensures r in {Crashed, Failed} ==> OpensAs(storage.codec, index.order, storage.disk.durable, last)
  {
    hide Inv, OpensAs, Lossless, Prepare, Published, Refresh, Index.Contents;
    ghost var c, order := storage.codec, index.order;
    var db := Db(storage.disk.live, storage.meta, State(index.root, index.count));
    ghost var s := AsSim(db.file, db.meta, db.tree, index.Contents(), last);
    InvGood(c, order, s);
    var p := storage.Commit(db);
    match p {
      case Done =>
        PublishedIsSettled(c, order, s);
        var latest := Refresh(storage.codec, storage.disk.live).value;
        index.root, index.count := latest.tree.root, latest.tree.count;
        Refreshed(c, order, AsSim(storage.disk.durable, storage.meta, latest.tree, s.model, s.model), index);
        r := Durable;
      case Crashed =>
        UnpublishedIsBefore(c, order, s, storage.disk.durable);
        r := Crashed;
      case Failed =>
        UnpublishedIsBefore(c, order, s, storage.disk.durable);
        r := Failed;
    }
  }

  // A tree with the map of an invariant state is a valid index of that map.
  lemma Refreshed(c: Codec, order: nat, s: Sim, index: Index)
    requires Inv(c, order, s) && index.order == order && State(index.root, index.count) == s.db.tree
    ensures index.Valid() && index.Contents() == s.model
  {
    hide ReadSlot, BestMeta, Holds, RootBacked, RootRanked;
  }

  // A database just initialised is settled.
  lemma NewIsSettled(index: Index, storage: S.Storage)
    requires index.Valid() && index.root == None && index.count == 0 && Lossless(storage.codec)
    requires storage.meta == EMPTY_META && storage.disk.live == storage.disk.durable == InitFile(storage.codec.crc, [])
    ensures Settled(index, storage)
  {
    hide InitFile, Inv, Lossless;
    StartOK(storage.codec, index.order);
    assert index.Contents() == map[];
  }
}
