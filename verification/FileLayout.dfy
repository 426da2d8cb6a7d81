/** The file format said byte by byte (`docs/storage-format.md`), apart from the code that writes and
    reads it: what lies at which offset, numbers by place value. The slots and records written have
    this layout, and a slot or record is read exactly when the bytes there have it. */
module FileLayout {
  import opened Prelude
  import opened Bytes
  import opened FileFormat

  // ----- numbers -----

  // An unsigned number by place value, the most significant byte first.
  function BigEndian(b: bytes): nat {
    if b == [] then 0 else b[0] as nat * Pow256(|b| - 1) + BigEndian(b[1..])
  }

  lemma {:induction false} BigEndianSnoc(b: bytes, x: byte)
    ensures BigEndian(b + [x]) == BigEndian(b) * 256 + x as nat
  {
    if b == [] {
      assert b + [x] == [x];
      assert BigEndian([x][1..]) == 0;
    } else {
      assert (b + [x])[1..] == b[1..] + [x];
      BigEndianSnoc(b[1..], x);
      Shift(b[0] as nat, Pow256(|b| - 1));
    }
  }

  lemma Shift(d: nat, p: nat)
    ensures d * (256 * p) == (d * p) * 256
  {
  }

  lemma {:induction false} UnpackIsBigEndian(b: bytes)
    ensures Unpack(b) == BigEndian(b)
  {
    if b != [] {
      UnpackIsBigEndian(b[..|b| - 1]);
      BigEndianSnoc(b[..|b| - 1], b[|b| - 1]);
      assert b[..|b| - 1] + [b[|b| - 1]] == b;
    }
  }

  lemma PackIsBigEndian(n: nat, w: nat)
    requires n < Pow256(w)
    ensures BigEndian(Pack(n, w)) == n
  {
    UnpackPack(n, w);
    UnpackIsBigEndian(Pack(n, w));
  }

  // ----- slots -----

  // The number in bytes `i` to `j - 1`.
  function Field(b: bytes, i: nat, j: nat): nat
    requires i <= j <= |b|
  {
    BigEndian(b[i..j])
  }

  predicate SaysMagic(b: bytes)
    requires |b| >= 4
  {
    b[0] as int == 'I' as int && b[1] as int == 'M' as int && b[2] as int == 'M' as int && b[3] as int == 'U' as int
  }

  // The first 44 bytes of a slot.
  predicate SlotLayout(crc: Checksum, b: bytes, version: nat, m: Meta)
    requires |b| == 44
  {
    && SaysMagic(b)
    && Field(b, 4, 8) == version
    && Field(b, 8, 16) == m.txn
    && Field(b, 16, 24) == m.root
    && Field(b, 24, 32) == m.count
    && Field(b, 32, 40) == m.dataLength
    && Field(b, 40, 44) == crc(b[..40])
  }

  // A slot is found, with those numbers, exactly when its bytes have the layout of version 2.
  lemma SlotReadIff(crc: Checksum, f: bytes, index: nat, m: Meta)
    ensures ReadSlot(crc, f, index) == Found(m) <==>
            && 4096 * index + 44 <= |f| && m.slot == index
            && SlotLayout(crc, f[4096 * index..4096 * index + 44], 2, m)
  {
    if 4096 * index + 44 <= |f| {
      ParseSlotIff(crc, f[4096 * index..4096 * index + 44], index, m);
    }
  }

  lemma ParseSlotIff(crc: Checksum, b: bytes, index: nat, m: Meta)
    requires |b| == 44
    ensures ParseSlot(crc, b, index) == Found(m) <==> m.slot == index && SlotLayout(crc, b, 2, m)
    ensures ParseSlot(crc, b, index).BadVersion? <==>
            SaysMagic(b) && Field(b, 4, 8) != 2 && Field(b, 40, 44) == crc(b[..40])
  {
    hide Unpack, BigEndian;
    var body := b[..40];
    assert body[..4] == b[..4] && body[4..8] == b[4..8] && body[8..16] == b[8..16] && body[16..24] == b[16..24];
    assert body[24..32] == b[24..32] && body[32..40] == b[32..40] && b[40..] == b[40..44];
    assert b[..4] == [b[0], b[1], b[2], b[3]];
    UnpackIsBigEndian(b[4..8]);
    UnpackIsBigEndian(b[8..16]);
    UnpackIsBigEndian(b[16..24]);
    UnpackIsBigEndian(b[24..32]);
    UnpackIsBigEndian(b[32..40]);
    UnpackIsBigEndian(b[40..44]);
  }

  // A slot is 4096 bytes: the layout, then zeros.
  lemma SlotWritten(crc: Checksum, m: Meta)
    requires Encodable(m)
    ensures var b := MetaBlock(crc, m);
            |b| == 4096 && SlotLayout(crc, b[..44], 2, m) && forall i :: 44 <= i < 4096 ==> b[i] == 0
  {
    hide ParseSlot, Pack, MetaBody;
    ParseMetaBlock(crc, m, m.slot);
    ParseSlotIff(crc, MetaBlock(crc, m)[..44], m.slot, m);
  }

  // ----- which slot counts -----

  // Of the slots that are found the one of the highest transaction, slot 0 if they are equal; none
  // if neither is found, or if either is of another version.
  lemma BestMetaIff(crc: Checksum, f: bytes, m: Meta)
    ensures var a, b := ReadSlot(crc, f, 0), ReadSlot(crc, f, 1);
            BestMeta(crc, f) == Some(m) <==>
              && !a.BadVersion? && !b.BadVersion?
              && (a == Found(m) || b == Found(m))
              && (a.Found? ==> a.meta.txn <= m.txn) && (b.Found? ==> b.meta.txn <= m.txn)
              && (a.Found? && a.meta.txn == m.txn ==> a.meta == m)
  {
    hide ReadSlot;
  }

  // ----- records -----

  // The bytes at `a` are a record of `payload`: its length, its checksum and itself.
  predicate RecordLayout(crc: Checksum, f: bytes, a: nat, payload: bytes) {
    && a + 8 + |payload| <= |f|
    && Field(f, a, a + 4) == |payload|
    && Field(f, a + 4, a + 8) == crc(payload)
    && f[a + 8..a + 8 + |payload|] == payload
  }

  // A record is read exactly when it is laid out there whole with the right checksum.
  lemma RecordReadIff(crc: Checksum, f: bytes, address: int, payload: bytes)
    ensures ReadRecord(crc, f, address) == Some(payload) <==> address > 0 && RecordLayout(crc, f, address, payload)
  {
    if address > 0 && address + 8 <= |f| {
      hide Unpack, BigEndian;
      UnpackIsBigEndian(f[address..address + 4]);
      UnpackIsBigEndian(f[address + 4..address + 8]);
    }
  }

  // A record whose stored checksum is not that of its payload is corrupt.
  lemma WrongChecksumIsCorrupt(crc: Checksum, f: bytes, address: nat)
    requires address + 8 <= |f| && address + 8 + Field(f, address, address + 4) <= |f|
    requires var start, length := address + 8, Field(f, address, address + 4);
             crc(f[start..start + length]) != Field(f, address + 4, address + 8)
    ensures ReadRecord(crc, f, address) == None
  {
    var r := ReadRecord(crc, f, address);
    if r.Some? {
      RecordReadIff(crc, f, address, r.value);
    }
  }

  // A record is written at the end of the file, after the two slots, in that layout.
  lemma RecordWritten(crc: Checksum, f: bytes, payload: bytes)
    requires |f| >= 8192 && |payload| < LIMIT32
    ensures RecordLayout(crc, f + Record(crc, payload), |f|, payload)
  {
    RecordReadsBack(crc, f, payload);
    RecordReadIff(crc, f + Record(crc, payload), |f|, payload);
  }

  // ----- the file itself -----

  // Writing beyond the end fills the gap with zeros, and cutting a file to a greater length does.
  lemma GapsAreZero(f: bytes, pos: nat, data: bytes, n: nat)
    ensures forall i :: |f| <= i < pos ==> WriteAt(f, pos, data)[i] == 0
    ensures |Truncate(f, n)| == n
    ensures forall i :: 0 <= i < n ==> Truncate(f, n)[i] == if i < |f| then f[i] else 0
  {
  }
}
