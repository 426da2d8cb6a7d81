/** The database file as bytes (`imustore/physical.py`, `docs/storage-format.md`): two meta slots
    of 4096 bytes, then records, each a length, a CRC32 and a payload. */
module FileFormat {
  import opened Prelude
  import opened Bytes

  const META_SLOT_SIZE := 4096
  const SUPERBLOCK_SIZE := 8192
  const META_BODY_BYTES := 40
  const META_CRC_BYTES := 4
  const RECORD_HEADER_BYTES := 8
  const MAGIC: bytes := [0x49, 0x4D, 0x4D, 0x55]
  const FORMAT_VERSION := 2
  const LIMIT32 := 0x1_0000_0000
  const LIMIT64 := 0x1_0000_0000_0000_0000

  // ----- big-endian integers -----

  function Pow256(w: nat): nat {
    if w == 0 then 1 else 256 * Pow256(w - 1)
  }

  // `n` in `w` bytes, most significant first.
  function Pack(n: nat, w: nat): (b: bytes)
    ensures |b| == w
    decreases w
  {
    if w == 0 then [] else Pack(n / 256, w - 1) + [(n % 256) as byte]
  }

  function Unpack(b: bytes): nat {
    if b == [] then 0 else Unpack(b[..|b| - 1]) * 256 + b[|b| - 1] as nat
  }

  lemma {:induction false} UnpackPack(n: nat, w: nat)
    requires n < Pow256(w)
    ensures Unpack(Pack(n, w)) == n
    decreases w
  {
    if w > 0 {
      UnpackPack(n / 256, w - 1);
      assert Pack(n, w)[..w - 1] == Pack(n / 256, w - 1);
    }
  }

  lemma Widths()
    ensures Pow256(4) == LIMIT32 && Pow256(8) == LIMIT64
  {
    assert Pow256(2) == 65536;
    assert Pow256(4) == 256 * (256 * Pow256(2));
    assert Pow256(6) == 256 * (256 * Pow256(4));
    assert Pow256(8) == 256 * (256 * Pow256(6));
  }

  // ----- checksums -----

  type Word = x: nat | x < LIMIT32

  // The source uses CRC32. Nothing but its being a function into 32 bits matters here: whether a
  // damaged slot can pass is part of what a crash may leave behind, not of the format.
  type Checksum = bytes -> Word

  // ----- writing into a file -----

  function Zeros(n: nat): (z: bytes)
    ensures |z| == n
  {
    seq(n, _ => 0 as byte)
  }

  // Overwrite at `pos`, extending with zeros where the file is too short.
  function WriteAt(f: bytes, pos: nat, data: bytes): (g: bytes)
    ensures |g| == Max(|f|, pos + |data|)
    ensures g[pos..pos + |data|] == data
    ensures forall i :: 0 <= i < |f| && !(pos <= i < pos + |data|) ==> g[i] == f[i]
  {
    var end := pos + |data|;
    var base := if end > |f| then f + Zeros(end - |f|) else f;
    base[..pos] + data + base[end..]
  }

  function Truncate(f: bytes, n: nat): bytes {
    if n < |f| then f[..n] else f + Zeros(n - |f|)
  }

  // ----- meta slots -----

  datatype Meta = Meta(txn: nat, root: nat, count: nat, dataLength: nat, slot: nat)

  datatype SlotRead = Nothing | BadVersion | Found(meta: Meta)

  predicate Encodable(m: Meta) {
    m.txn < LIMIT64 && m.root < LIMIT64 && m.count < LIMIT64 && m.dataLength < LIMIT64
  }

  function MetaBody(m: Meta): (b: bytes)
    ensures |b| == META_BODY_BYTES
  {
    MAGIC + Pack(FORMAT_VERSION, 4) + Pack(m.txn, 8) + Pack(m.root, 8) + Pack(m.count, 8) + Pack(m.dataLength, 8)
  }

  function MetaBlock(crc: Checksum, m: Meta): (b: bytes)
    ensures |b| == META_SLOT_SIZE
  {
    MetaBody(m) + Pack(crc(MetaBody(m)), 4) + Zeros(META_SLOT_SIZE - META_BODY_BYTES - META_CRC_BYTES)
  }

  // A 40-byte body and its 4-byte checksum, as found in a slot.
  function ParseSlot(crc: Checksum, raw: bytes, index: nat): SlotRead
    requires |raw| == META_BODY_BYTES + META_CRC_BYTES
  {
    var body := raw[..META_BODY_BYTES];
    if crc(body) != Unpack(raw[META_BODY_BYTES..]) then Nothing
    else if body[..4] != MAGIC then Nothing
    else if Unpack(body[4..8]) != FORMAT_VERSION then BadVersion
    else Found(Meta(Unpack(body[8..16]), Unpack(body[16..24]), Unpack(body[24..32]), Unpack(body[32..40]), index))
  }

  function SlotBytes(f: bytes, index: nat): bytes
    requires index * META_SLOT_SIZE + META_BODY_BYTES + META_CRC_BYTES <= |f|
  {
    f[index * META_SLOT_SIZE..index * META_SLOT_SIZE + META_BODY_BYTES + META_CRC_BYTES]
  }

  function ReadSlot(crc: Checksum, f: bytes, index: nat): SlotRead {
    if |f| < index * META_SLOT_SIZE + META_BODY_BYTES + META_CRC_BYTES then Nothing
    else ParseSlot(crc, SlotBytes(f, index), index)
  }

  function WriteSlot(crc: Checksum, f: bytes, index: nat, m: Meta): (g: bytes)
    ensures |g| == Max(|f|, index * META_SLOT_SIZE + META_SLOT_SIZE)
  {
    WriteAt(f, index * META_SLOT_SIZE, MetaBlock(crc, m))
  }

  // The valid slot of the highest transaction id, the first of two equals. None is the source's
  // DatabaseCorruptionError.
  function BestMeta(crc: Checksum, f: bytes): Option<Meta> {
    var a, b := ReadSlot(crc, f, 0), ReadSlot(crc, f, 1);
    if a.BadVersion? || b.BadVersion? then None
    else if a.Found? && (b.Nothing? || b.meta.txn <= a.meta.txn) then Some(a.meta)
    else if b.Found? then Some(b.meta)
    else None
  }

  // ----- records -----

  function Record(crc: Checksum, payload: bytes): (r: bytes)
    ensures |r| == RECORD_HEADER_BYTES + |payload|
  {
    Pack(|payload|, 4) + Pack(crc(payload), 4) + payload
  }

  // None is DatabaseCorruptionError: no such record, cut short, or a checksum that disagrees.
  function ReadRecord(crc: Checksum, f: bytes, address: int): Option<bytes> {
    if address <= 0 || address + RECORD_HEADER_BYTES > |f| then None
    else
      var length := Unpack(f[address..address + 4]);
      var start := address + RECORD_HEADER_BYTES;
      if start + length > |f| then None
      else if crc(f[start..start + length]) != Unpack(f[address + 4..address + 8]) then None
      else Some(f[start..start + length])
  }

  // ----- what reads back -----

  lemma Middle(a: bytes, b: bytes, c: bytes)
    ensures (a + b + c)[|a|..|a| + |b|] == b
  {
  }

  lemma BodyFields(m: Meta)
    ensures var b := MetaBody(m);
            && b[..4] == MAGIC && b[4..8] == Pack(FORMAT_VERSION, 4)
            && b[8..16] == Pack(m.txn, 8) && b[16..24] == Pack(m.root, 8)
            && b[24..32] == Pack(m.count, 8) && b[32..40] == Pack(m.dataLength, 8)
  {
    hide Pack;
    var v, t, r, c, d := Pack(FORMAT_VERSION, 4), Pack(m.txn, 8), Pack(m.root, 8), Pack(m.count, 8),
        Pack(m.dataLength, 8);
    var b := MetaBody(m);
    assert b == MAGIC + v + (t + r + c + d);
    Middle(MAGIC, v, t + r + c + d);
    assert b == (MAGIC + v) + t + (r + c + d);
    Middle(MAGIC + v, t, r + c + d);
    assert b == (MAGIC + v + t) + r + (c + d);
    Middle(MAGIC + v + t, r, c + d);
    assert b == (MAGIC + v + t + r) + c + d;
    Middle(MAGIC + v + t + r, c, d);
  }

  lemma ParseMetaBlock(crc: Checksum, m: Meta, index: nat)
    requires Encodable(m)
    ensures ParseSlot(crc, MetaBlock(crc, m)[..META_BODY_BYTES + META_CRC_BYTES], index) == Found(m.(slot := index))
  {
    hide Pow256, Pack, Unpack, MetaBody;
    var body, tail := MetaBody(m), Pack(crc(MetaBody(m)), 4);
    var raw := MetaBlock(crc, m)[..META_BODY_BYTES + META_CRC_BYTES];
    assert raw[..META_BODY_BYTES] == body && raw[META_BODY_BYTES..] == tail;
    BodyFields(m);
    Widths();
    UnpackPack(crc(body), 4);
    UnpackPack(FORMAT_VERSION, 4);
    UnpackPack(m.txn, 8);
    UnpackPack(m.root, 8);
    UnpackPack(m.count, 8);
    UnpackPack(m.dataLength, 8);
  }

  // A written slot reads back.
  lemma SlotReadsBack(crc: Checksum, f: bytes, index: nat, m: Meta)
    requires Encodable(m)
    ensures ReadSlot(crc, WriteSlot(crc, f, index, m), index) == Found(m.(slot := index))
  {
    hide MetaBlock, ParseSlot;
    var g, at, n := WriteSlot(crc, f, index, m), index * META_SLOT_SIZE, META_BODY_BYTES + META_CRC_BYTES;
    assert g[at..at + META_SLOT_SIZE] == MetaBlock(crc, m);
    assert SlotBytes(g, index) == g[at..at + META_SLOT_SIZE][..n];
    ParseMetaBlock(crc, m, index);
  }

  // Files that agree where slot `index` lies read the same there.
  lemma SlotFrame(crc: Checksum, f: bytes, g: bytes, index: nat)
    requires var at := index * META_SLOT_SIZE;
             && at + META_BODY_BYTES + META_CRC_BYTES <= |f| && at + META_BODY_BYTES + META_CRC_BYTES <= |g|
             && forall i :: at <= i < at + META_BODY_BYTES + META_CRC_BYTES ==> f[i] == g[i]
    ensures ReadSlot(crc, f, index) == ReadSlot(crc, g, index)
  {
    assert SlotBytes(f, index) == SlotBytes(g, index);
  }

  // Writing one slot of an initialised file leaves the other slot and the records alone.
  lemma WriteSlotFrame(crc: Checksum, f: bytes, index: nat, m: Meta)
    requires index <= 1 && |f| >= SUPERBLOCK_SIZE
    ensures var g := WriteSlot(crc, f, index, m);
            && |g| == |f|
            && ReadSlot(crc, g, 1 - index) == ReadSlot(crc, f, 1 - index)
            && g[SUPERBLOCK_SIZE..] == f[SUPERBLOCK_SIZE..]
  {
    hide MetaBlock, ParseSlot;
    var g := WriteSlot(crc, f, index, m);
    SlotFrame(crc, g, f, 1 - index);
  }

  // The record region of `g` begins with that of `f`.
  predicate Extended(f: bytes, g: bytes) {
    SUPERBLOCK_SIZE <= |f| <= |g| && forall i :: SUPERBLOCK_SIZE <= i < |f| ==> f[i] == g[i]
  }

  // An appended record reads back, and a record once readable stays readable as it was.
  lemma RecordReadsBack(crc: Checksum, f: bytes, payload: bytes)
    requires |f| >= SUPERBLOCK_SIZE && |payload| < LIMIT32
    ensures ReadRecord(crc, f + Record(crc, payload), |f|) == Some(payload)
  {
    hide Pow256, Pack, Unpack;
    var len, sum, g := Pack(|payload|, 4), Pack(crc(payload), 4), f + Record(crc, payload);
    assert g == f + len + (sum + payload);
    Middle(f, len, sum + payload);
    assert g == (f + len) + sum + payload;
    Middle(f + len, sum, payload);
    assert g[|f| + 8..] == payload;
    Widths();
    UnpackPack(|payload|, 4);
    UnpackPack(crc(payload), 4);
    assert g[|f| + 8..|f| + 8 + |payload|] == payload;
  }

  lemma RecordFrame(crc: Checksum, f: bytes, g: bytes, address: int)
    requires Extended(f, g) && address >= SUPERBLOCK_SIZE && ReadRecord(crc, f, address).Some?
    ensures ReadRecord(crc, g, address) == ReadRecord(crc, f, address)
  {
    hide Unpack;
    var length, start := Unpack(f[address..address + 4]), address + RECORD_HEADER_BYTES;
    assert f[address..address + 4] == g[address..address + 4];
    assert f[address + 4..address + 8] == g[address + 4..address + 8];
    assert f[start..start + length] == g[start..start + length];
  }
}
