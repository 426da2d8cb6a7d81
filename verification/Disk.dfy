/** The simulated disk (`imustore/simdisk.py`): what the process sees, what would survive a power
    loss, and a flush that can be armed to fail. */
module Disk {
  import opened Prelude
  import opened Bytes
  import opened FileFormat

  class SimDisk {
    var live: bytes
    var durable: bytes
    var pos: nat
    var flushes: nat
    var crashAt: Option<nat>

    constructor (initial: bytes)
      ensures live == durable == initial && pos == 0 && flushes == 0 && crashAt == None
    {
      live, durable, pos, flushes, crashAt := initial, initial, 0, 0, None;
    }

    // One of the next `k` flushes is the armed one.
    predicate FailsWithin(k: nat)
      reads this
    {
      crashAt.Some? && flushes + k >= crashAt.value
    }

    method Seek(offset: nat)
      modifies `pos
      ensures pos == offset
    {
      pos := offset;
    }

    method SeekEnd() returns (size: nat)
      modifies `pos
      ensures pos == size == |live|
    {
      pos := |live|;
      size := pos;
    }

    // At most `size` bytes from the position on; past the end there are none.
    method Read(size: nat) returns (data: bytes)
      modifies `pos
      ensures data == if old(pos) <= |live| then live[old(pos)..Min(old(pos) + size, |live|)] else []
      ensures pos == Min(old(pos) + size, |live|)
    {
      var end := Min(pos + size, |live|);
      data := if pos <= end then live[pos..end] else [];
      pos := end;
    }

    method Write(data: bytes)
      modifies `live, `pos
      ensures live == WriteAt(old(live), old(pos), data) && pos == old(pos) + |data|
    {
      var end := pos + |data|;
      if end > |live| {
        live := live + Zeros(end - |live|);
      }
      live := live[..pos] + data + live[end..];
      pos := end;
    }

    method Truncate(size: nat)
      modifies `live
      ensures live == FileFormat.Truncate(old(live), size)
    {
      if size < |live| {
        live := live[..size];
      } else if size > |live| {
        live := live + Zeros(size - |live|);
      } else {
        assert live + Zeros(0) == live;
      }
    }

    // Everything written becomes durable, or, at the armed flush, nothing more does (SimCrash).
    method Flush() returns (ok: bool)
      modifies `durable, `flushes, `crashAt
      ensures flushes == old(flushes) + 1
      ensures ok <==> !(old(crashAt).Some? && flushes >= old(crashAt).value)
      ensures if ok then durable == live && crashAt == old(crashAt) else durable == old(durable) && crashAt == None
    {
      flushes := flushes + 1;
      if crashAt.Some? && flushes >= crashAt.value {
        crashAt := None;
        return false;
      }
      durable := live;
      return true;
    }

    method ArmCrash(after: nat)
      modifies `crashAt
      ensures crashAt == Some(flushes + after)
    {
      crashAt := Some(flushes + after);
    }
  }
}
