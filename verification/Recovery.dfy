/** Crash recovery (`imustore/physical.py`, `imustore/simulation.py`): the storage simulation as a
    transition system on file bytes. One writer opens the file, stages updates in memory, commits
    by flushing appended records, writing the other meta slot and flushing again, and may lose
    power at any point; opening what is left must give an allowed state, and every check the
    simulation makes must pass, in every run. */
module Recovery {
  import opened Prelude
  import opened Bytes
  import opened KeyOrder
  import opened SortedItems
  import opened BPlusTree
  import opened BPlusTheorems
  import opened BPlusAudit
  import opened FileFormat
  import opened Persist
  import opened PersistTree

  // ----- opening -----

  const EMPTY_META := Meta(0, 0, 0, SUPERBLOCK_SIZE, 0)

  function InitFile(crc: Checksum, f: bytes): bytes {
    Truncate(WriteSlot(crc, WriteSlot(crc, f, 0, EMPTY_META), 1, EMPTY_META), SUPERBLOCK_SIZE)
  }

  // The file after `_ensure_meta`; None is DatabaseCorruptionError.
  function Opened(crc: Checksum, f: bytes): Option<bytes> {
    if |f| < SUPERBLOCK_SIZE then Some(InitFile(crc, f))
    else
      var m := BestMeta(crc, f);
      if m.None? then None
      else if |f| > m.value.dataLength then Some(Truncate(f, m.value.dataLength))
      else Some(f)
  }

  function RootAt(c: Codec, f: bytes, a: nat): Option<Option<Tree>> {
    if a == 0 then Some(None)
    else
      var t := Load(c, f, a);
      if t.None? then None else Some(t)
  }

  // An open handle: the file, the meta block it goes by, and the tree with its count.
  datatype Db = Db(file: bytes, meta: Meta, tree: State)

  // What `_refresh_tree_ref` sees.
  function Refresh(c: Codec, f: bytes): (r: Option<Db>)
    ensures r.Some? ==> r.value.file == f && BestMeta(c.crc, f) == Some(r.value.meta)
  {
    var m := BestMeta(c.crc, f);
    if m.None? then None
    else
      var root := RootAt(c, f, m.value.root);
      if root.None? then None else Some(Db(f, m.value, State(root.value, m.value.count)))
  }

  function OpenDb(c: Codec, f: bytes): Option<Db> {
    var g := Opened(c.crc, f);
    if g.None? then None else Refresh(c, g.value)
  }

  // ----- committing -----

  function SaveRoot(c: Codec, f: bytes, root: Option<Tree>): Option<(bytes, nat)> {
    if root.None? then Some((f, 0))
    else
      var r := Save(c, f, root.value);
      if r.None? then None else Some((r.value.0, r.value.1.addr))
  }

  // The records of a commit and the meta block that will publish them. None is the
  // `struct.error` of a number or a payload too large for the format.
  function Prepare(c: Codec, db: Db): Option<(bytes, Meta)> {
    var r := SaveRoot(c, db.file, db.tree.root);
    if r.None? || db.tree.count < 0 || db.meta.slot > 1 then None
    else
      var m := Meta(db.meta.txn + 1, r.value.1, db.tree.count, |r.value.0|, 1 - db.meta.slot);
      if Encodable(m) then Some((r.value.0, m)) else None
  }

  function Published(c: Codec, p: (bytes, Meta)): bytes {
    WriteSlot(c.crc, p.0, p.1.slot, p.1)
  }

  // ----- the simulation -----

  // `committed` is the history of committed maps since the last recovery, `model` the last of
  // them with the updates staged since.
  datatype Sim = Sim(db: Db, model: map<Key, bytes>, committed: seq<map<Key, bytes>>)

  /** What a crash leaves in the file.

      Lost: power goes before the commit's first flush has returned, or between operations. All
      that is certain is what was durable; any part of the appended records may have landed, and
      so may junk.

      Torn: power goes between the two flushes. The records are durable; the slot being written
      reads as it did, as it should, or not at all.

      Corrupted: a slot of a file at rest no longer reads. */
  datatype Fault = Lost(image: bytes) | Torn(image: bytes) | Corrupted(slot: nat, image: bytes)

  datatype Action = Do(op: Op) | Commit | Crash(fault: Fault)

  predicate AgreeOutside(f: bytes, g: bytes, slot: nat) {
    |f| <= |g| && forall i :: 0 <= i < |f| && !(slot * META_SLOT_SIZE <= i < (slot + 1) * META_SLOT_SIZE) ==>
        f[i] == g[i]
  }

  predicate TornImage(c: Codec, p: (bytes, Meta), image: bytes) {
    && AgreeOutside(p.0, image, p.1.slot)
    && ReadSlot(c.crc, image, p.1.slot) in {ReadSlot(c.crc, p.0, p.1.slot), Found(p.1), Nothing}
  }

  ghost predicate Enabled(c: Codec, s: Sim, a: Action) {
    match a
    case Do(op) => IsRank(op.key)
    case Commit => Prepare(c, s.db).Some?
    case Crash(Lost(image)) => s.db.file <= image
    case Crash(Torn(image)) => Prepare(c, s.db).Some? && TornImage(c, Prepare(c, s.db).value, image)
    case Crash(Corrupted(slot, image)) =>
      && |s.committed| >= 2 && slot <= 1
      && AgreeOutside(s.db.file, image, slot) && |image| == |s.db.file|
      && ReadSlot(c.crc, image, slot) == Nothing
  }

  // Which map recovery has to come back with.
  ghost predicate Expected(c: Codec, s: Sim, fault: Fault, recovered: map<Key, bytes>) {
    && |s.committed| >= 1
    && var last := s.committed[|s.committed| - 1];
    match fault
    case Lost(_) => recovered == last
    case Torn(image) =>
      var p := Prepare(c, s.db);
      p.Some? && recovered == if ReadSlot(c.crc, image, p.value.1.slot) == Found(p.value.1) then s.model else last
    case Corrupted(slot, _) =>
      |s.committed| >= 2 && recovered == if slot == s.db.meta.slot then s.committed[|s.committed| - 2] else last
  }

  // One step. None is a failure: the file does not open, or a check does not hold.
  ghost function Next(c: Codec, order: nat, s: Sim, a: Action): Option<Sim> {
    if !GoodRoot(order, s.db.tree.root) then None
    else match a
      case Do(op) => Some(s.(db := s.db.(tree := Step(order, s.db.tree, op)), model := Effect(s.model, op)))
      case Commit =>
        var p := Prepare(c, s.db);
        if p.None? then None
        else
          var db := Refresh(c, Published(c, p.value));
          if db.None? then None else Some(Sim(db.value, s.model, s.committed + [s.model]))
      case Crash(fault) => Recover(c, order, s, fault)
  }

  ghost function Recover(c: Codec, order: nat, s: Sim, fault: Fault): (r: Option<Sim>)
    ensures r.Some? ==> OpenDb(c, fault.image) == Some(r.value.db)
  {
    var db := OpenDb(c, fault.image);
    if db.None? then None
    else
      var root := db.value.tree.root;
      var report := Audit(Readable(c, db.value.file), order, root, db.value.tree.count);
      if report.errors != 0 || (root.Some? && !Shaped(root.value)) then None
      else
        var recovered := ToMap(RootItems(root));
        if Expected(c, s, fault, recovered) then Some(Sim(db.value, recovered, [recovered])) else None
  }

  function Start(c: Codec): Sim {
    Sim(Db(InitFile(c.crc, []), EMPTY_META, State(None, 0)), map[], [map[]])
  }

  ghost function Play(c: Codec, order: nat, actions: seq<Action>): Option<Sim> {
    if actions == [] then Some(Start(c))
    else
      var s := Play(c, order, actions[..|actions| - 1]);
      if s.None? then None else Next(c, order, s.value, actions[|actions| - 1])
  }

  // Every action could happen where it does.
  ghost predicate Possible(c: Codec, order: nat, actions: seq<Action>) {
    forall i :: 0 <= i < |actions| ==>
      var s := Play(c, order, actions[..i]); s.Some? ==> Enabled(c, s.value, actions[i])
  }

  // ----- the invariant -----

  // The meta block `m` of file `f` leads to a well-formed tree of `model`.
  ghost predicate Holds(c: Codec, order: nat, f: bytes, m: Meta, model: map<Key, bytes>) {
    && SUPERBLOCK_SIZE <= m.dataLength <= |f|
    && var root := RootAt(c, f[..m.dataLength], m.root);
    root.Some? && RootRanked(root.value) && Refines(order, State(root.value, m.count), model)
  }

  ghost predicate Inv(c: Codec, order: nat, s: Sim) {
    var f, m, n := s.db.file, s.db.meta, |s.committed|;
    && |f| == m.dataLength
    && m.slot <= 1
    && ReadSlot(c.crc, f, m.slot) == Found(m)
    && BestMeta(c.crc, f) == Some(m)
    && n >= 1
    && Holds(c, order, f, m, s.committed[n - 1])
    && (n >= 2 ==>
          var other := ReadSlot(c.crc, f, 1 - m.slot);
          other.Found? && other.meta.txn < m.txn && Holds(c, order, f, other.meta, s.committed[n - 2]))
    && Refines(order, s.db.tree, s.model)
    && RootBacked(c, f, s.db.tree.root) && RootRanked(s.db.tree.root)
  }

  // ----- slots and maps of related files -----

  lemma BestIs(crc: Checksum, f: bytes, i: nat, m: Meta)
    requires i <= 1 && ReadSlot(crc, f, i) == Found(m)
    requires var other := ReadSlot(crc, f, 1 - i); other.Nothing? || (other.Found? && other.meta.txn < m.txn)
    ensures BestMeta(crc, f) == Some(m)
  {
    hide ReadSlot;
  }

  // What the other slot of a file may hold beside the best one.
  lemma BestOther(crc: Checksum, f: bytes, i: nat, m: Meta)
    requires i <= 1 && BestMeta(crc, f) == Some(m) && ReadSlot(crc, f, i) == Found(m)
    ensures var other := ReadSlot(crc, f, 1 - i); other.Nothing? || (other.Found? && other.meta.txn <= m.txn)
  {
    hide ReadSlot;
  }

  lemma SlotIndex(crc: Checksum, f: bytes, i: nat)
    ensures ReadSlot(crc, f, i).Found? ==> ReadSlot(crc, f, i).meta.slot == i
  {
  }

  // Files that agree on a stretch that includes both slots.
  lemma SlotsFrame(crc: Checksum, f: bytes, g: bytes)
    requires SUPERBLOCK_SIZE <= |f| && SUPERBLOCK_SIZE <= |g| && f[..SUPERBLOCK_SIZE] == g[..SUPERBLOCK_SIZE]
    ensures ReadSlot(crc, f, 0) == ReadSlot(crc, g, 0) && ReadSlot(crc, f, 1) == ReadSlot(crc, g, 1)
    ensures BestMeta(crc, f) == BestMeta(crc, g)
  {
    hide ParseSlot;
    assert forall i :: 0 <= i < SUPERBLOCK_SIZE ==> f[i] == f[..SUPERBLOCK_SIZE][i] && g[i] == g[..SUPERBLOCK_SIZE][i];
    SlotFrame(crc, f, g, 0);
    SlotFrame(crc, f, g, 1);
  }

  lemma OtherSlotFrame(crc: Checksum, f: bytes, g: bytes, slot: nat)
    requires SUPERBLOCK_SIZE <= |f| && slot <= 1 && AgreeOutside(f, g, slot)
    ensures ReadSlot(crc, g, 1 - slot) == ReadSlot(crc, f, 1 - slot)
  {
    hide ParseSlot;
    SlotFrame(crc, f, g, 1 - slot);
  }

  lemma RootFrame(c: Codec, f: bytes, g: bytes, a: nat)
    requires Extended(f, g) && RootAt(c, f, a).Some?
    ensures RootAt(c, g, a) == RootAt(c, f, a)
  {
    if a != 0 { LoadFrame(c, f, g, a); }
  }

  lemma HoldsFrame(c: Codec, order: nat, f: bytes, g: bytes, m: Meta, model: map<Key, bytes>)
    requires Holds(c, order, f, m, model) && Extended(f[..m.dataLength], g)
    ensures Holds(c, order, g, m, model)
  {
    hide Refines, RootAt;
    RootFrame(c, f[..m.dataLength], g[..m.dataLength], m.root);
  }

  // ----- opening a file whose best slot holds a map -----

  lemma RootIsBacked(c: Codec, f: bytes, a: nat)
    requires RootAt(c, f, a).Some?
    ensures RootBacked(c, f, RootAt(c, f, a).value)
  {
    if a != 0 { Loaded(c, f, a); }
  }

  // Opening goes back to the best slot's map, and cuts the file where that commit ended it.
  lemma OpenOK(c: Codec, order: nat, image: bytes, m: Meta, model: map<Key, bytes>)
    requires BestMeta(c.crc, image) == Some(m) && Holds(c, order, image, m, model)
    ensures OpenDb(c, image).Some?
    ensures var db := OpenDb(c, image).value;
            && db.file == image[..m.dataLength] && db.meta == m
            && BestMeta(c.crc, db.file) == Some(m)
            && ReadSlot(c.crc, db.file, 0) == ReadSlot(c.crc, image, 0)
            && ReadSlot(c.crc, db.file, 1) == ReadSlot(c.crc, image, 1)
            && Refines(order, db.tree, model) && RootBacked(c, db.file, db.tree.root) && RootRanked(db.tree.root)
  {
    hide Refines, RootAt, ReadSlot, BestMeta;
    var f := image[..m.dataLength];
    if |image| == m.dataLength { assert f == image; }
    assert Opened(c.crc, image) == Some(f);
    assert f[..SUPERBLOCK_SIZE] == image[..SUPERBLOCK_SIZE];
    SlotsFrame(c.crc, image, f);
    RootIsBacked(c, f, m.root);
  }

  // Recovery from such a file passes every check and re-establishes the invariant.
  lemma RecoverOK(c: Codec, order: nat, s: Sim, fault: Fault, m: Meta, model: map<Key, bytes>)
    requires BestMeta(c.crc, fault.image) == Some(m) && Holds(c, order, fault.image, m, model)
    requires m.slot <= 1 && ReadSlot(c.crc, fault.image, m.slot) == Found(m)
    requires Expected(c, s, fault, model)
    ensures Recover(c, order, s, fault).Some? && Inv(c, order, Recover(c, order, s, fault).value)
  {
    hide RootAt, ReadSlot, BestMeta, Audit, Expected, OpenDb;
    OpenOK(c, order, fault.image, m, model);
    var db := OpenDb(c, fault.image).value;
    RefinesAudits(c, db.file, order, db.tree, model);
    HoldsFrame(c, order, fault.image, db.file, m, model);
  }

  // ----- each fault -----

  lemma LostOK(c: Codec, order: nat, s: Sim, image: bytes)
    requires Inv(c, order, s) && s.db.file <= image
    ensures Recover(c, order, s, Lost(image)).Some? && Inv(c, order, Recover(c, order, s, Lost(image)).value)
  {
    hide Refines, RootAt, ReadSlot, BestMeta, Recover, Holds, RootBacked;
    var f, m := s.db.file, s.db.meta;
    HoldsLong(c, order, f, m, s.committed[|s.committed| - 1]);
    assert f[..SUPERBLOCK_SIZE] == image[..SUPERBLOCK_SIZE];
    SlotsFrame(c.crc, f, image);
    HoldsFrame(c, order, f, image, m, s.committed[|s.committed| - 1]);
    RecoverOK(c, order, s, Lost(image), m, s.committed[|s.committed| - 1]);
  }

  lemma CorruptedOK(c: Codec, order: nat, s: Sim, slot: nat, image: bytes)
    requires Inv(c, order, s) && Enabled(c, s, Crash(Corrupted(slot, image)))
    ensures var r := Recover(c, order, s, Corrupted(slot, image)); r.Some? && Inv(c, order, r.value)
  {
    hide Refines, RootAt, ReadSlot, BestMeta, Recover, Holds, RootBacked;
    var f, m, n := s.db.file, s.db.meta, |s.committed|;
    HoldsLong(c, order, f, m, s.committed[n - 1]);
    OtherSlotFrame(c.crc, f, image, slot);
    var keep := if slot == m.slot then ReadSlot(c.crc, f, 1 - m.slot).meta else m;
    var model := s.committed[if slot == m.slot then n - 2 else n - 1];
    SlotIndex(c.crc, f, 1 - m.slot);
    BestIs(c.crc, image, 1 - slot, keep);
    HoldsLong(c, order, f, keep, model);
    HoldsFrame(c, order, f, image, keep, model);
    RecoverOK(c, order, s, Corrupted(slot, image), keep, model);
  }

  lemma HoldsLong(c: Codec, order: nat, f: bytes, m: Meta, model: map<Key, bytes>)
    requires Holds(c, order, f, m, model)
    ensures SUPERBLOCK_SIZE <= m.dataLength <= |f|
  {
  }

  // What a commit has written before it publishes: only appended, and the model when followed.
  lemma PrepareOK(c: Codec, order: nat, db: Db, model: map<Key, bytes>)
    requires Lossless(c) && |db.file| >= SUPERBLOCK_SIZE
    requires Refines(order, db.tree, model) && RootBacked(c, db.file, db.tree.root) && RootRanked(db.tree.root)
    requires Prepare(c, db).Some?
    ensures var (g, m) := Prepare(c, db).value;
            && db.file <= g && m.dataLength == |g|
            && Holds(c, order, g, m, model)
  {
    var (g, m) := Prepare(c, db).value;
    assert g[..|g|] == g;
    if db.tree.root.Some? {
      var t := db.tree.root.value;
      SaveOK(c, db.file, t);
      var u := Save(c, db.file, t).value.1;
      LoadOK(c, g, u);
      AlikeRoot(order, t, u);
      AlikeRanked(t, u);
    }
  }

  // A file between the two flushes of a commit, or after the second, still holds the last commit
  // in its slot, and the new one in the other if that slot reads as new.
  lemma TornHolds(c: Codec, order: nat, s: Sim, image: bytes)
    requires Lossless(c) && Inv(c, order, s) && Prepare(c, s.db).Some? && TornImage(c, Prepare(c, s.db).value, image)
    ensures var p := Prepare(c, s.db).value.1;
            && p.slot == 1 - s.db.meta.slot && p.txn > s.db.meta.txn && p.dataLength <= |image|
            && ReadSlot(c.crc, image, s.db.meta.slot) == Found(s.db.meta)
            && Holds(c, order, image, s.db.meta, s.committed[|s.committed| - 1])
            && Holds(c, order, image, p, s.model)
            && BestMeta(c.crc, image) == Some(if ReadSlot(c.crc, image, p.slot) == Found(p) then p else s.db.meta)
  {
    hide Refines, RootAt, ReadSlot, BestMeta, Holds, RootBacked, SaveRoot;
    var f, m, last := s.db.file, s.db.meta, s.committed[|s.committed| - 1];
    var (g, p) := Prepare(c, s.db).value;
    HoldsLong(c, order, f, m, last);
    PrepareOK(c, order, s.db, s.model);
    assert f[..SUPERBLOCK_SIZE] == g[..SUPERBLOCK_SIZE];
    SlotsFrame(c.crc, f, g);
    OtherSlotFrame(c.crc, g, image, p.slot);
    HoldsFrame(c, order, f, image, m, last);
    HoldsFrame(c, order, g, image, p, s.model);
    TornBest(c, order, s, image);
  }

  lemma TornBest(c: Codec, order: nat, s: Sim, image: bytes)
    requires Prepare(c, s.db).Some? && TornImage(c, Prepare(c, s.db).value, image)
    requires var (g, p) := Prepare(c, s.db).value; var m := s.db.meta;
             && BestMeta(c.crc, g) == Some(m) && ReadSlot(c.crc, g, m.slot) == Found(m)
             && ReadSlot(c.crc, image, m.slot) == Found(m)
    ensures var p := Prepare(c, s.db).value.1;
            BestMeta(c.crc, image) == Some(if ReadSlot(c.crc, image, p.slot) == Found(p) then p else s.db.meta)
  {
    hide ReadSlot, SaveRoot;
    var (g, p) := Prepare(c, s.db).value;
    var m := s.db.meta;
    BestOther(c.crc, g, m.slot, m);
    if ReadSlot(c.crc, image, p.slot) == Found(p) {
      BestIs(c.crc, image, p.slot, p);
    }
  }

  lemma TornOK(c: Codec, order: nat, s: Sim, image: bytes)
    requires Lossless(c) && Inv(c, order, s) && Enabled(c, s, Crash(Torn(image)))
    ensures Recover(c, order, s, Torn(image)).Some? && Inv(c, order, Recover(c, order, s, Torn(image)).value)
  {
    hide Refines, RootAt, ReadSlot, BestMeta, Recover, Holds, RootBacked, Prepare;
    TornHolds(c, order, s, image);
    var p := Prepare(c, s.db).value.1;
    if ReadSlot(c.crc, image, p.slot) == Found(p) {
      RecoverOK(c, order, s, Torn(image), p, s.model);
    } else {
      RecoverOK(c, order, s, Torn(image), s.db.meta, s.committed[|s.committed| - 1]);
    }
  }

  // A commit that completes is the image in which the slot reads as new.
  lemma PublishedIsTorn(c: Codec, p: (bytes, Meta))
    requires |p.0| >= SUPERBLOCK_SIZE && p.1.slot <= 1 && Encodable(p.1)
    ensures TornImage(c, p, Published(c, p)) && |Published(c, p)| == |p.0|
    ensures ReadSlot(c.crc, Published(c, p), p.1.slot) == Found(p.1)
  {
    hide ReadSlot, MetaBlock;
    SlotReadsBack(c.crc, p.0, p.1.slot, p.1);
    assert p.1.(slot := p.1.slot) == p.1;
  }

  lemma CommitOK(c: Codec, order: nat, s: Sim)
    requires Lossless(c) && Inv(c, order, s) && Prepare(c, s.db).Some?
    ensures Next(c, order, s, Commit).Some? && Inv(c, order, Next(c, order, s, Commit).value)
  {
    hide RootAt, ReadSlot, BestMeta, SaveRoot, Published, TornImage, RootBacked, RootRanked, Lossless, GoodRoot;
    hide Recover, Step, Effect;
    var p := Prepare(c, s.db).value;
    var g, n := Published(c, p), |s.committed|;
    PrepareOK(c, order, s.db, s.model);
    PublishedIsTorn(c, p);
    TornHolds(c, order, s, g);
    assert g[..p.1.dataLength] == g;
    RootIsBacked(c, g, p.1.root);
  }

  lemma DoOK(c: Codec, order: nat, s: Sim, op: Op)
    requires Inv(c, order, s) && IsRank(op.key)
    ensures Next(c, order, s, Do(op)).Some? && Inv(c, order, Next(c, order, s, Do(op)).value)
  {
    hide RootAt, ReadSlot, BestMeta, Holds, RootBacked, RootRanked, IsRank, Step, Effect;
    StepRefines(order, s.db.tree, s.model, op);
    StepBacked(c, s.db.file, order, s.db.tree, op);
    StepRanked(order, s.db.tree, op);
  }

  lemma NextOK(c: Codec, order: nat, s: Sim, a: Action)
    requires Lossless(c) && Inv(c, order, s) && Enabled(c, s, a)
    ensures Next(c, order, s, a).Some? && Inv(c, order, Next(c, order, s, a).value)
  {
    hide RootAt, ReadSlot, BestMeta, Holds, RootBacked, Recover, Prepare;
    match a {
      case Do(op) => DoOK(c, order, s, op);
      case Commit => CommitOK(c, order, s);
      case Crash(Lost(image)) => LostOK(c, order, s, image);
      case Crash(Torn(image)) => TornOK(c, order, s, image);
      case Crash(Corrupted(slot, image)) => CorruptedOK(c, order, s, slot, image);
    }
  }

  // ----- runs -----

  // A file too short for the superblock is given two slots for the empty tree.
  lemma InitSlots(crc: Checksum, f: bytes)
    requires |f| < SUPERBLOCK_SIZE
    ensures var g := InitFile(crc, f);
            && |g| == SUPERBLOCK_SIZE
            && ReadSlot(crc, g, 0) == Found(EMPTY_META) && ReadSlot(crc, g, 1) == Found(EMPTY_META.(slot := 1))
  {
    hide ReadSlot, MetaBlock, ParseSlot;
    var f0 := WriteSlot(crc, f, 0, EMPTY_META);
    var g := WriteSlot(crc, f0, 1, EMPTY_META);
    assert InitFile(crc, f) == g;
    SlotReadsBack(crc, f, 0, EMPTY_META);
    SlotReadsBack(crc, f0, 1, EMPTY_META);
    SlotFrame(crc, g, f0, 0);
  }

  lemma StartOK(c: Codec, order: nat)
    requires order >= 3
    ensures Inv(c, order, Start(c))
    ensures OpenDb(c, []) == Some(Start(c).db)
  {
    hide ReadSlot, WriteSlot, InitFile;
    InitSlots(c.crc, []);
  }

  lemma PossibleBefore(c: Codec, order: nat, actions: seq<Action>, n: nat)
    requires Possible(c, order, actions) && n <= |actions|
    ensures Possible(c, order, actions[..n])
  {
    hide Play, Enabled;
    var before := actions[..n];
    forall i | 0 <= i < n
      ensures var s := Play(c, order, before[..i]); s.Some? ==> Enabled(c, s.value, before[i])
    {
      assert before[..i] == actions[..i];
    }
  }

  /** Every run of sets, deletes, commits and crashes succeeds: whatever a crash left behind opens
      again, audits clean and holds the map it has to hold, and the next run goes on from there. */
  lemma {:induction false} NeverFails(c: Codec, order: nat, actions: seq<Action>)
    requires Lossless(c) && order >= 3 && Possible(c, order, actions)
    ensures Play(c, order, actions).Some?
    ensures Inv(c, order, Play(c, order, actions).value)
  {
    hide Next, Inv, Enabled;
    if actions == [] {
      StartOK(c, order);
    } else {
      var n := |actions| - 1;
      var before := actions[..n];
      PossibleBefore(c, order, actions, n);
      NeverFails(c, order, before);
      NextOK(c, order, Play(c, order, before).value, actions[n]);
    }
  }

  /** After any run, whatever a crash leaves opens as an audited tree of the map it has to hold: the
      last commit, the commit in flight if its slot was written, or, if the newest slot was
      damaged, the commit before. */
  lemma CrashRecovers(c: Codec, order: nat, actions: seq<Action>, fault: Fault)
    requires Lossless(c) && order >= 3 && Possible(c, order, actions + [Crash(fault)])
    ensures Play(c, order, actions).Some? && OpenDb(c, fault.image).Some?
    ensures var s, db := Play(c, order, actions).value, OpenDb(c, fault.image).value;
            var tree := db.tree;
            && (tree.root.Some? ==> Shaped(tree.root.value))
            && Audit(Readable(c, db.file), order, tree.root, tree.count).errors == 0
            && Expected(c, s, fault, ToMap(RootItems(tree.root)))
  {
    hide OpenDb, Audit, Expected, Inv, Enabled;
    var all := actions + [Crash(fault)];
    assert all[..|actions|] == actions;
    NeverFails(c, order, all);
  }

  /** At every state of every run, with a tree read back from the file and updates staged on it,
      `audit` reports no error, every value it follows included. */
  lemma AuditIsClean(c: Codec, order: nat, actions: seq<Action>)
    requires Lossless(c) && order >= 3 && Possible(c, order, actions)
    ensures Play(c, order, actions).Some?
    ensures var db := Play(c, order, actions).value.db;
            Audit(Readable(c, db.file), order, db.tree.root, db.tree.count).errors == 0
  {
    hide Audit, Play, Possible, ReadSlot, BestMeta, Holds;
    NeverFails(c, order, actions);
    var s := Play(c, order, actions).value;
    RefinesAudits(c, s.db.file, order, s.db.tree, s.model);
  }

  // ----- snapshots -----

  lemma OpenExtends(c: Codec, order: nat, f: bytes, image: bytes, m: Meta, model: map<Key, bytes>)
    requires BestMeta(c.crc, image) == Some(m) && Holds(c, order, image, m, model)
    requires Extended(f, image) && |f| <= m.dataLength
    ensures OpenDb(c, image).Some? && Extended(f, OpenDb(c, image).value.file)
  {
    hide RootAt, ReadSlot, BestMeta, Refines, RootBacked;
    OpenOK(c, order, image, m, model);
  }

  lemma LostExtends(c: Codec, order: nat, s: Sim, image: bytes)
    requires Inv(c, order, s) && s.db.file <= image
    ensures OpenDb(c, image).Some? && Extended(s.db.file, OpenDb(c, image).value.file)
  {
    hide RootAt, ReadSlot, BestMeta, Refines, RootBacked, Holds, OpenDb;
    var f, m, last := s.db.file, s.db.meta, s.committed[|s.committed| - 1];
    HoldsLong(c, order, f, m, last);
    assert f[..SUPERBLOCK_SIZE] == image[..SUPERBLOCK_SIZE];
    SlotsFrame(c.crc, f, image);
    HoldsFrame(c, order, f, image, m, last);
    OpenExtends(c, order, f, image, m, last);
  }

  lemma TornExtends(c: Codec, order: nat, s: Sim, image: bytes)
    requires Lossless(c) && Inv(c, order, s) && Enabled(c, s, Crash(Torn(image)))
    ensures OpenDb(c, image).Some? && Extended(s.db.file, OpenDb(c, image).value.file)
  {
    hide RootAt, ReadSlot, BestMeta, Refines, RootBacked, Holds, OpenDb, Prepare;
    var f, m, last := s.db.file, s.db.meta, s.committed[|s.committed| - 1];
    HoldsLong(c, order, f, m, last);
    TornHolds(c, order, s, image);
    PrepareOK(c, order, s.db, s.model);
    var p := Prepare(c, s.db).value.1;
    if ReadSlot(c.crc, image, p.slot) == Found(p) {
      OpenExtends(c, order, f, image, p, s.model);
    } else {
      OpenExtends(c, order, f, image, m, last);
    }
  }

  lemma CommitExtends(c: Codec, order: nat, s: Sim)
    requires Lossless(c) && Inv(c, order, s) && Prepare(c, s.db).Some?
    ensures Extended(s.db.file, Published(c, Prepare(c, s.db).value))
  {
    hide RootAt, ReadSlot, BestMeta, RootBacked, Refines, Published, SaveRoot;
    PrepareOK(c, order, s.db, s.model);
    PublishedIsTorn(c, Prepare(c, s.db).value);
  }

  // Short of a damaged slot, a step leaves every record of the file where it was.
  lemma NextExtends(c: Codec, order: nat, s: Sim, a: Action)
    requires Lossless(c) && Inv(c, order, s) && Enabled(c, s, a) && !(a.Crash? && a.fault.Corrupted?)
    requires Next(c, order, s, a).Some?
    ensures Extended(s.db.file, Next(c, order, s, a).value.db.file)
  {
    hide RootAt, ReadSlot, BestMeta, RootBacked, Recover, OpenDb, GoodRoot, Step, Holds, Refresh, Published, Prepare,
        Refines;
    HoldsLong(c, order, s.db.file, s.db.meta, s.committed[|s.committed| - 1]);
    match a {
      case Do(_) =>
      case Commit => CommitExtends(c, order, s);
      case Crash(Lost(image)) => LostExtends(c, order, s, image);
      case Crash(Torn(image)) => TornExtends(c, order, s, image);
    }
  }

  ghost predicate Undamaged(actions: seq<Action>) {
    forall a :: a in actions ==> !(a.Crash? && a.fault.Corrupted?)
  }

  /** Snapshots: a root that could be read at some point of a run reads as the same tree ever
      after, through any later updates, commits and crashes. */
  lemma {:induction false} SnapshotsStay(c: Codec, order: nat, before: seq<Action>, after: seq<Action>, root: nat)
    requires Lossless(c) && order >= 3 && Possible(c, order, before + after) && Undamaged(after)
    requires Play(c, order, before).Some? && RootAt(c, Play(c, order, before).value.db.file, root).Some?
    ensures Play(c, order, before + after).Some?
    ensures RootAt(c, Play(c, order, before + after).value.db.file, root) ==
            RootAt(c, Play(c, order, before).value.db.file, root)
    decreases |after|
  {
    hide Next, Inv, Enabled, RootAt;
    var all := before + after;
    if after == [] {
      assert all == before;
    } else {
      var n := |all| - 1;
      var prior := after[..|after| - 1];
      assert all[..n] == before + prior;
      PossibleBefore(c, order, all, n);
      SnapshotsStay(c, order, before, prior, root);
      NeverFails(c, order, before + prior);
      var s := Play(c, order, before + prior).value;
      NextOK(c, order, s, all[n]);
      NextExtends(c, order, s, all[n]);
      RootFrame(c, s.db.file, Play(c, order, all).value.db.file, root);
    }
  }

  // ----- the simulation's own faults -----

  // The checksum of a slot with every bit of it inverted (`_corrupt_a_meta_slot`).
  function FlipChecksum(f: bytes, slot: nat): bytes
    requires slot * META_SLOT_SIZE + META_BODY_BYTES + META_CRC_BYTES <= |f|
  {
    var at := slot * META_SLOT_SIZE + META_BODY_BYTES;
    var stored := Unpack(f[at..at + META_CRC_BYTES]);
    WriteAt(f, at, Pack(if stored < LIMIT32 then LIMIT32 - 1 - stored else 0, META_CRC_BYTES))
  }

  // The slot no longer reads, and nothing outside it has changed.
  lemma FlipReadsNothing(crc: Checksum, f: bytes, slot: nat)
    requires slot <= 1 && |f| >= SUPERBLOCK_SIZE && ReadSlot(crc, f, slot).Found?
    ensures ReadSlot(crc, FlipChecksum(f, slot), slot) == Nothing
  {
    hide Pack, Unpack, Pow256;
    var at := slot * META_SLOT_SIZE + META_BODY_BYTES;
    var g := FlipChecksum(f, slot);
    var raw, flipped := SlotBytes(f, slot), SlotBytes(g, slot);
    assert raw[..META_BODY_BYTES] == f[at - META_BODY_BYTES..at];
    assert flipped[..META_BODY_BYTES] == g[at - META_BODY_BYTES..at] == f[at - META_BODY_BYTES..at];
    assert raw[META_BODY_BYTES..] == f[at..at + META_CRC_BYTES];
    assert flipped[META_BODY_BYTES..] == g[at..at + META_CRC_BYTES];
    Widths();
    UnpackPack(LIMIT32 - 1 - crc(raw[..META_BODY_BYTES]), META_CRC_BYTES);
  }

  lemma FlipAgreesOutside(f: bytes, slot: nat)
    requires slot <= 1 && |f| >= SUPERBLOCK_SIZE
    ensures AgreeOutside(f, FlipChecksum(f, slot), slot) && |FlipChecksum(f, slot)| == |f|
  {
    hide Pack, Unpack;
  }

  // It is a corruption in the sense above, of any slot that reads.
  lemma FlipIsCorruption(c: Codec, s: Sim, slot: nat)
    requires |s.committed| >= 2 && slot <= 1 && |s.db.file| >= SUPERBLOCK_SIZE
    requires ReadSlot(c.crc, s.db.file, slot).Found?
    ensures Enabled(c, s, Crash(Corrupted(slot, FlipChecksum(s.db.file, slot))))
  {
    hide ReadSlot, FlipChecksum, AgreeOutside;
    FlipReadsNothing(c.crc, s.db.file, slot);
    FlipAgreesOutside(s.db.file, slot);
  }

  // Recovery interrupted and begun again ends where it would have ended.
  lemma RecoveryRepeats(c: Codec, order: nat, image: bytes, m: Meta, model: map<Key, bytes>)
    requires BestMeta(c.crc, image) == Some(m) && Holds(c, order, image, m, model)
    ensures OpenDb(c, image).Some? && OpenDb(c, OpenDb(c, image).value.file) == OpenDb(c, image)
  {
    hide Refines, RootAt, ReadSlot, BestMeta;
    OpenOK(c, order, image, m, model);
    var f := OpenDb(c, image).value.file;
    HoldsFrame(c, order, image, f, m, model);
    OpenOK(c, order, f, m, model);
    assert f[..m.dataLength] == f;
  }
}
