/** Trees in the file (`imustore/logical.py`, `imustore/bplus_tree.py`): a reference is stored at
    most once, children before parents, and following addresses back gives the tree again. */
module Persist {
  import opened Prelude
  import opened Bytes
  import opened KeyOrder
  import opened BPlusTree
  import opened FileFormat

  // What a node record holds: keys, and the addresses of values or children.
  datatype Payload = LeafRec(keys: seq<Key>, values: seq<nat>) | NodeRec(keys: seq<Key>, children: seq<nat>)

  // The checksum and the library encoder of node payloads.
  datatype Codec = Codec(crc: Checksum, encode: Payload -> bytes, decode: bytes -> Option<Payload>)

  // Decoding undoes encoding on records whose keys are strings.
  ghost predicate Lossless(c: Codec) {
    forall p: Payload :: (forall k :: k in p.keys ==> IsRank(k)) ==> c.decode(c.encode(p)) == Some(p)
  }

  function ValueAddrs(values: seq<ValueRef>): (r: seq<nat>)
    ensures |r| == |values| && forall i :: 0 <= i < |r| ==> r[i] == values[i].addr
  {
    seq(|values|, i requires 0 <= i < |values| => values[i].addr)
  }

  function ChildAddrs(children: seq<Tree>): (r: seq<nat>)
    ensures |r| == |children| && forall i :: 0 <= i < |r| ==> r[i] == children[i].addr
  {
    seq(|children|, i requires 0 <= i < |children| => children[i].addr)
  }

  function PayloadOf(t: Tree): Payload {
    if t.Leaf? then LeafRec(t.keys, ValueAddrs(t.values)) else NodeRec(t.keys, ChildAddrs(t.children))
  }

  // ----- following references -----

  // None is DatabaseCorruptionError. An address that does not lie strictly between the
  // superblock and the record that mentions it also gives None: no file that `Save` wrote has one,
  // which is why following references ends.
  function Load(c: Codec, f: bytes, a: nat): (r: Option<Tree>)
    decreases a
  {
    var raw := ReadRecord(c.crc, f, a);
    if a < SUPERBLOCK_SIZE || raw.None? then None
    else
      var p := c.decode(raw.value);
      if p.None? then None
      else match p.value
        case LeafRec(keys, addrs) =>
          var vs := LoadValues(c, f, a, addrs);
          if vs.None? then None else Some(Leaf(a, keys, vs.value))
        case NodeRec(keys, addrs) =>
          var ts := LoadAll(c, f, a, addrs);
          if ts.None? then None else Some(Internal(a, keys, ts.value))
  }

  function LoadValues(c: Codec, f: bytes, parent: nat, addrs: seq<nat>): Option<seq<ValueRef>> {
    if addrs == [] then Some([])
    else
      var raw := ReadRecord(c.crc, f, addrs[0]);
      if !(SUPERBLOCK_SIZE <= addrs[0] < parent) || raw.None? then None
      else
        var rest := LoadValues(c, f, parent, addrs[1..]);
        if rest.None? then None else Some([ValueRef(addrs[0], raw.value)] + rest.value)
  }

  function LoadAll(c: Codec, f: bytes, parent: nat, addrs: seq<nat>): Option<seq<Tree>>
    decreases parent, |addrs|
  {
    if addrs == [] then Some([])
    else if !(SUPERBLOCK_SIZE <= addrs[0] < parent) then None
    else
      var t := Load(c, f, addrs[0]);
      var rest := LoadAll(c, f, parent, addrs[1..]);
      if t.None? || rest.None? then None else Some([t.value] + rest.value)
  }

  // ----- storing references -----

  // `Storage.write`: append one record. None is the `struct.error` of a payload of 4 GiB or more.
  function Append(c: Codec, f: bytes, payload: bytes): Option<(bytes, nat)> {
    if |payload| >= LIMIT32 then None
    else
      var a := Max(|f|, SUPERBLOCK_SIZE);
      Some((WriteAt(f, a, Record(c.crc, payload)), a))
  }

  function SaveValue(c: Codec, f: bytes, v: ValueRef): Option<(bytes, ValueRef)> {
    if v.addr != 0 then Some((f, v))
    else
      var w := Append(c, f, v.payload);
      if w.None? then None else Some((w.value.0, v.(addr := w.value.1)))
  }

  function SaveValues(c: Codec, f: bytes, vs: seq<ValueRef>): Option<(bytes, seq<ValueRef>)>
    decreases |vs|
  {
    if vs == [] then Some((f, []))
    else
      var v := SaveValue(c, f, vs[0]);
      if v.None? then None
      else
        var rest := SaveValues(c, v.value.0, vs[1..]);
        if rest.None? then None else Some((rest.value.0, [v.value.1] + rest.value.1))
  }

  // Give a node whose parts are stored a record of its own.
  function SaveNode(c: Codec, f: bytes, t: Tree): Option<(bytes, Tree)> {
    var w := Append(c, f, c.encode(PayloadOf(t)));
    if w.None? then None else Some((w.value.0, t.(addr := w.value.1)))
  }

  function Save(c: Codec, f: bytes, t: Tree): Option<(bytes, Tree)>
    decreases t, 0
  {
    if t.addr != 0 then Some((f, t))
    else match t
      case Leaf(_, keys, values) =>
        var vs := SaveValues(c, f, values);
        if vs.None? then None else SaveNode(c, vs.value.0, Leaf(0, keys, vs.value.1))
      case Internal(_, keys, children) =>
        var ts := SaveAll(c, f, children);
        if ts.None? then None else SaveNode(c, ts.value.0, Internal(0, keys, ts.value.1))
  }

  function SaveAll(c: Codec, f: bytes, ts: seq<Tree>): Option<(bytes, seq<Tree>)>
    decreases ts, 1
  {
    if ts == [] then Some((f, []))
    else
      var t := Save(c, f, ts[0]);
      if t.None? then None
      else
        var rest := SaveAll(c, t.value.0, ts[1..]);
        if rest.None? then None else Some((rest.value.0, [t.value.1] + rest.value.1))
  }

  // ----- addresses that are right -----

  predicate ValueBacked(c: Codec, f: bytes, v: ValueRef) {
    v.addr != 0 ==> v.addr >= SUPERBLOCK_SIZE && ReadRecord(c.crc, f, v.addr) == Some(v.payload)
  }

  // The record at the node's address describes the node, and mentions only earlier records.
  predicate Described(c: Codec, f: bytes, t: Tree) {
    && t.addr >= SUPERBLOCK_SIZE
    && ReadRecord(c.crc, f, t.addr).Some?
    && c.decode(ReadRecord(c.crc, f, t.addr).value) == Some(PayloadOf(t))
    && (t.Leaf? ==> forall v :: v in t.values ==> SUPERBLOCK_SIZE <= v.addr < t.addr)
    && (t.Internal? ==> forall u :: u in t.children ==> SUPERBLOCK_SIZE <= u.addr < t.addr)
  }

  // Every address in the tree is 0, for not yet stored, or right.
  predicate Backed(c: Codec, f: bytes, t: Tree) {
    && (t.addr != 0 ==> Described(c, f, t))
    && (t.Leaf? ==> forall v :: v in t.values ==> ValueBacked(c, f, v))
    && (t.Internal? ==> forall u :: u in t.children ==> Backed(c, f, u))
  }

  predicate AllBacked(c: Codec, f: bytes, ts: seq<Tree>) {
    forall u :: u in ts ==> Backed(c, f, u)
  }

  predicate ValuesBacked(c: Codec, f: bytes, vs: seq<ValueRef>) {
    forall v :: v in vs ==> ValueBacked(c, f, v)
  }

  // The same keys, payloads and shape, whatever the addresses.
  predicate Alike(t: Tree, u: Tree) {
    && t.keys == u.keys
    && (t.Leaf? <==> u.Leaf?)
    && (t.Leaf? ==> SamePayloads(t.values, u.values))
    && (t.Internal? ==>
          |t.children| == |u.children| && forall i :: 0 <= i < |t.children| ==> Alike(t.children[i], u.children[i]))
  }

  predicate SamePayloads(vs: seq<ValueRef>, ws: seq<ValueRef>) {
    |vs| == |ws| && forall i :: 0 <= i < |vs| ==> vs[i].payload == ws[i].payload
  }

  predicate AllAlike(ts: seq<Tree>, us: seq<Tree>) {
    |ts| == |us| && forall i :: 0 <= i < |ts| ==> Alike(ts[i], us[i])
  }

  // Every key in the tree is a string's.
  ghost predicate Ranked(t: Tree) {
    && (forall k :: k in t.keys ==> IsRank(k))
    && (t.Internal? ==> forall u :: u in t.children ==> Ranked(u))
  }

  ghost predicate AllRanked(ts: seq<Tree>) {
    forall t :: t in ts ==> Ranked(t)
  }

  // ----- later appends change nothing stored -----

  lemma {:induction false} ValueFrame(c: Codec, f: bytes, g: bytes, v: ValueRef)
    requires Extended(f, g) && ValueBacked(c, f, v)
    ensures ValueBacked(c, g, v)
  {
    if v.addr != 0 { RecordFrame(c.crc, f, g, v.addr); }
  }

  lemma {:induction false} BackedFrame(c: Codec, f: bytes, g: bytes, t: Tree)
    requires Extended(f, g) && Backed(c, f, t)
    ensures Backed(c, g, t)
    decreases t
  {
    if t.addr != 0 { RecordFrame(c.crc, f, g, t.addr); }
    if t.Leaf? {
      forall v | v in t.values ensures ValueBacked(c, g, v) { ValueFrame(c, f, g, v); }
    } else {
      forall u | u in t.children ensures Backed(c, g, u) { BackedFrame(c, f, g, u); }
    }
  }

  lemma {:induction false} AllFrame(c: Codec, f: bytes, g: bytes, ts: seq<Tree>)
    requires Extended(f, g) && AllBacked(c, f, ts)
    ensures AllBacked(c, g, ts)
  {
    forall u | u in ts ensures Backed(c, g, u) { BackedFrame(c, f, g, u); }
  }

  lemma {:induction false} ValuesFrame(c: Codec, f: bytes, g: bytes, vs: seq<ValueRef>)
    requires Extended(f, g) && ValuesBacked(c, f, vs)
    ensures ValuesBacked(c, g, vs)
  {
    forall v | v in vs ensures ValueBacked(c, g, v) { ValueFrame(c, f, g, v); }
  }

  lemma {:induction false} PrefixExtends(f: bytes, g: bytes)
    requires SUPERBLOCK_SIZE <= |f| && f <= g
    ensures Extended(f, g)
  {
  }

  // ----- saving -----

  lemma {:induction false} AppendOK(c: Codec, f: bytes, payload: bytes)
    requires |f| >= SUPERBLOCK_SIZE && Append(c, f, payload).Some?
    ensures var (g, a) := Append(c, f, payload).value;
            a == |f| < |g| && f <= g && Extended(f, g) && ReadRecord(c.crc, g, a) == Some(payload)
  {
    assert WriteAt(f, |f|, Record(c.crc, payload)) == f + Record(c.crc, payload);
    RecordReadsBack(c.crc, f, payload);
  }

  lemma {:induction false} SaveValueOK(c: Codec, f: bytes, v: ValueRef)
    requires |f| >= SUPERBLOCK_SIZE && ValueBacked(c, f, v) && SaveValue(c, f, v).Some?
    ensures var (g, w) := SaveValue(c, f, v).value;
            f <= g && ValueBacked(c, g, w) && SUPERBLOCK_SIZE <= w.addr < |g| && w.payload == v.payload
  {
    if v.addr == 0 { AppendOK(c, f, v.payload); }
  }

  predicate ValuesBelow(vs: seq<ValueRef>, n: nat) {
    forall v :: v in vs ==> SUPERBLOCK_SIZE <= v.addr < n
  }

  predicate AllBelow(ts: seq<Tree>, n: nat) {
    forall t :: t in ts ==> SUPERBLOCK_SIZE <= t.addr < n
  }

  lemma {:induction false} SaveValuesOK(c: Codec, f: bytes, vs: seq<ValueRef>)
    requires |f| >= SUPERBLOCK_SIZE && ValuesBacked(c, f, vs) && SaveValues(c, f, vs).Some?
    ensures var (g, ws) := SaveValues(c, f, vs).value;
            f <= g && ValuesBacked(c, g, ws) && ValuesBelow(ws, |g|) && SamePayloads(vs, ws)
    decreases |vs|
  {
    if vs != [] {
      SaveValueOK(c, f, vs[0]);
      var (g, w) := SaveValue(c, f, vs[0]).value;
      PrefixExtends(f, g);
      ValuesFrame(c, f, g, vs[1..]);
      SaveValuesOK(c, g, vs[1..]);
      var (h, ws) := SaveValues(c, g, vs[1..]).value;
      PrefixExtends(g, h);
      ValueFrame(c, g, h, w);
    }
  }

  lemma {:induction false} SaveNodeOK(c: Codec, f: bytes, t: Tree)
    requires Lossless(c) && |f| >= SUPERBLOCK_SIZE && t.addr == 0 && Backed(c, f, t) && SaveNode(c, f, t).Some?
    requires forall k :: k in t.keys ==> IsRank(k)
    requires t.Leaf? ==> ValuesBelow(t.values, |f|)
    requires t.Internal? ==> AllBelow(t.children, |f|)
    ensures var (g, u) := SaveNode(c, f, t).value;
            f <= g && Backed(c, g, u) && u == t.(addr := |f|) && |f| < |g|
  {
    AppendOK(c, f, c.encode(PayloadOf(t)));
    var (g, u) := SaveNode(c, f, t).value;
    BackedFrame(c, f, g, t);
    assert PayloadOf(u) == PayloadOf(t);
  }

  // Saving only appends, and leaves a tree that is stored in full and otherwise the same.
  lemma {:induction false} SaveOK(c: Codec, f: bytes, t: Tree)
    requires Lossless(c) && |f| >= SUPERBLOCK_SIZE && Backed(c, f, t) && Ranked(t) && Save(c, f, t).Some?
    ensures var (g, u) := Save(c, f, t).value;
            f <= g && Backed(c, g, u) && SUPERBLOCK_SIZE <= u.addr < |g| && Alike(t, u)
    decreases t, 0
  {
    if t.addr != 0 {
      AlikeSelf(t);
    } else if t.Leaf? {
      SaveValuesOK(c, f, t.values);
      var (g, vs) := SaveValues(c, f, t.values).value;
      SaveNodeOK(c, g, Leaf(0, t.keys, vs));
    } else {
      SaveAllOK(c, f, t.children);
      var (g, ts) := SaveAll(c, f, t.children).value;
      SaveNodeOK(c, g, Internal(0, t.keys, ts));
    }
  }

  lemma {:induction false} SaveAllOK(c: Codec, f: bytes, ts: seq<Tree>)
    requires Lossless(c) && |f| >= SUPERBLOCK_SIZE && AllBacked(c, f, ts) && AllRanked(ts) && SaveAll(c, f, ts).Some?
    ensures var (g, us) := SaveAll(c, f, ts).value;
            f <= g && AllBacked(c, g, us) && AllBelow(us, |g|) && AllAlike(ts, us)
    decreases ts, 1
  {
    if ts != [] {
      SaveOK(c, f, ts[0]);
      var (g, u) := Save(c, f, ts[0]).value;
      PrefixExtends(f, g);
      AllFrame(c, f, g, ts[1..]);
      SaveAllOK(c, g, ts[1..]);
      var (h, us) := SaveAll(c, g, ts[1..]).value;
      PrefixExtends(g, h);
      BackedFrame(c, g, h, u);
    }
  }

  lemma {:induction false} AlikeSelf(t: Tree)
    ensures Alike(t, t)
  {
    if t.Internal? {
      forall i | 0 <= i < |t.children| ensures Alike(t.children[i], t.children[i]) { AlikeSelf(t.children[i]); }
    }
  }

  // ----- loading -----

  lemma {:induction false} LoadValuesOK(c: Codec, f: bytes, parent: nat, vs: seq<ValueRef>)
    requires ValuesBacked(c, f, vs) && ValuesBelow(vs, parent)
    ensures LoadValues(c, f, parent, ValueAddrs(vs)) == Some(vs)
  {
    if vs != [] {
      LoadValuesOK(c, f, parent, vs[1..]);
      assert ValueAddrs(vs)[1..] == ValueAddrs(vs[1..]);
      assert vs[0] in vs && vs == [vs[0]] + vs[1..];
    }
  }

  // A stored tree is what following its address gives, and nothing else is.
  lemma {:induction false} LoadOK(c: Codec, f: bytes, t: Tree)
    requires Backed(c, f, t) && t.addr != 0
    ensures Load(c, f, t.addr) == Some(t)
    decreases t, 0
  {
    if t.Leaf? {
      LoadValuesOK(c, f, t.addr, t.values);
    } else {
      LoadAllOK(c, f, t.addr, t.children);
    }
  }

  lemma {:induction false} LoadAllOK(c: Codec, f: bytes, parent: nat, ts: seq<Tree>)
    requires AllBacked(c, f, ts) && AllBelow(ts, parent)
    ensures LoadAll(c, f, parent, ChildAddrs(ts)) == Some(ts)
    decreases ts, 1
  {
    if ts != [] {
      assert ts[0] in ts;
      LoadOK(c, f, ts[0]);
      LoadAllOK(c, f, parent, ts[1..]);
      assert ChildAddrs(ts)[1..] == ChildAddrs(ts[1..]);
      assert ts == [ts[0]] + ts[1..];
    }
  }

  lemma {:induction false} LoadedValues(c: Codec, f: bytes, parent: nat, addrs: seq<nat>)
    requires LoadValues(c, f, parent, addrs).Some?
    ensures var vs := LoadValues(c, f, parent, addrs).value;
            ValuesBacked(c, f, vs) && ValuesBelow(vs, parent) && ValueAddrs(vs) == addrs
  {
    if addrs != [] {
      LoadedValues(c, f, parent, addrs[1..]);
    }
  }

  lemma {:induction false} Loaded(c: Codec, f: bytes, a: nat)
    requires Load(c, f, a).Some?
    ensures var t := Load(c, f, a).value; Backed(c, f, t) && t.addr == a
    decreases a
  {
    match c.decode(ReadRecord(c.crc, f, a).value).value {
      case LeafRec(keys, addrs) => LoadedValues(c, f, a, addrs);
      case NodeRec(keys, addrs) => LoadedAll(c, f, a, addrs);
    }
  }

  lemma {:induction false} LoadedAll(c: Codec, f: bytes, parent: nat, addrs: seq<nat>)
    requires LoadAll(c, f, parent, addrs).Some?
    ensures var ts := LoadAll(c, f, parent, addrs).value;
            AllBacked(c, f, ts) && AllBelow(ts, parent) && ChildAddrs(ts) == addrs
    decreases parent, |addrs|
  {
    if addrs != [] {
      Loaded(c, f, addrs[0]);
      LoadedAll(c, f, parent, addrs[1..]);
    }
  }

  // The file holds the tree at that address exactly when every address in the tree is right.
  lemma {:induction false} LoadIffBacked(c: Codec, f: bytes, t: Tree)
    requires t.addr != 0
    ensures Load(c, f, t.addr) == Some(t) <==> Backed(c, f, t)
  {
    if Backed(c, f, t) { LoadOK(c, f, t); }
    if Load(c, f, t.addr) == Some(t) { Loaded(c, f, t.addr); }
  }

  // Whatever is appended later, an address goes on giving the tree it gave.
  lemma {:induction false} LoadFrame(c: Codec, f: bytes, g: bytes, a: nat)
    requires Extended(f, g) && Load(c, f, a).Some?
    ensures Load(c, g, a) == Load(c, f, a)
  {
    Loaded(c, f, a);
    BackedFrame(c, f, g, Load(c, f, a).value);
    LoadOK(c, g, Load(c, f, a).value);
  }

  // A tree put in the file comes back from the file, and so does every tree that was there.
  lemma {:induction false} SaveLoad(c: Codec, f: bytes, t: Tree, earlier: nat)
    requires Lossless(c) && |f| >= SUPERBLOCK_SIZE && Backed(c, f, t) && Ranked(t) && Save(c, f, t).Some?
    ensures var (g, u) := Save(c, f, t).value;
            && f <= g && Alike(t, u)
            && Load(c, g, u.addr) == Some(u)
            && (Load(c, f, earlier).Some? ==> Load(c, g, earlier) == Load(c, f, earlier))
  {
    SaveOK(c, f, t);
    var (g, u) := Save(c, f, t).value;
    LoadOK(c, g, u);
    PrefixExtends(f, g);
    if Load(c, f, earlier).Some? { LoadFrame(c, f, g, earlier); }
  }
}
