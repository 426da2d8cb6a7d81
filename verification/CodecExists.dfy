/** What the storage theorems ask of the encoder can be had: there are encoders of node records that
    their decoders undo. This one writes a record as numbers and a number as that many ones. */
module CodecExists {
  import opened Prelude
  import opened Bytes
  import opened KeyOrder
  import opened FileFormat
  import opened Persist

  function Unary(n: nat): bytes {
    if n == 0 then [0] else [1] + Unary(n - 1)
  }

  function Ones(ns: seq<nat>): bytes {
    if ns == [] then [] else Unary(ns[0]) + Ones(ns[1..])
  }

  lemma {:induction false} UnaryApart(m: nat, x: bytes, n: nat, y: bytes)
    requires Unary(m) + x == Unary(n) + y
    ensures m == n && x == y
  {
    var s, t := Unary(m) + x, Unary(n) + y;
    assert s[0] == (if m == 0 then 0 else 1) && t[0] == if n == 0 then 0 else 1;
    if m == 0 {
      assert s[1..] == x && t[1..] == y;
    } else {
      assert s[1..] == Unary(m - 1) + x && t[1..] == Unary(n - 1) + y;
      UnaryApart(m - 1, x, n - 1, y);
    }
  }

  lemma {:induction false} OnesApart(a: seq<nat>, b: seq<nat>)
    requires Ones(a) == Ones(b)
    ensures a == b
  {
    if a != [] && b != [] {
      UnaryApart(a[0], Ones(a[1..]), b[0], Ones(b[1..]));
      OnesApart(a[1..], b[1..]);
      assert a == [a[0]] + a[1..] && b == [b[0]] + b[1..];
    } else {
      assert forall ns: seq<nat> :: ns != [] ==> |Ones(ns)| > 0 by { OnesLonger(); }
    }
  }

  lemma OnesLonger()
    ensures forall ns: seq<nat> :: ns != [] ==> |Ones(ns)| > 0
  {
  }

  ghost function Name(k: Key): string {
    if IsRank(k) then var s :| Rank(s) == k; s else ""
  }

  ghost function Codes(s: string): seq<nat> {
    seq(|s|, i requires 0 <= i < |s| => s[i] as nat)
  }

  ghost function Names(keys: seq<Key>): seq<nat> {
    if keys == [] then [] else [|Name(keys[0])|] + Codes(Name(keys[0])) + Names(keys[1..])
  }

  ghost function Numbers(p: Payload): seq<nat> {
    [if p.LeafRec? then 0 else 1] + [|p.keys|] + (Names(p.keys) + if p.LeafRec? then p.values else p.children)
  }

  lemma NameApart(s: string, x: seq<nat>, t: string, y: seq<nat>)
    requires [|s|] + Codes(s) + x == [|t|] + Codes(t) + y
    ensures s == t && x == y
  {
    var a, b := [|s|] + Codes(s) + x, [|t|] + Codes(t) + y;
    assert a[0] == |s| && b[0] == |t|;
    forall i | 0 <= i < |s| ensures s[i] == t[i] {
      assert a[i + 1] == s[i] as nat && b[i + 1] == t[i] as nat;
    }
    assert a[|s| + 1..] == x && b[|t| + 1..] == y;
  }

  lemma {:induction false} NamesApart(ks: seq<Key>, x: seq<nat>, ls: seq<Key>, y: seq<nat>)
    requires |ks| == |ls| && (forall k :: k in ks ==> IsRank(k)) && forall k :: k in ls ==> IsRank(k)
    requires Names(ks) + x == Names(ls) + y
    ensures ks == ls && x == y
  {
    if ks == [] {
      assert Names(ks) + x == x && Names(ls) + y == y;
    } else {
      var s, t := Name(ks[0]), Name(ls[0]);
      assert Names(ks) + x == [|s|] + Codes(s) + (Names(ks[1..]) + x);
      assert Names(ls) + y == [|t|] + Codes(t) + (Names(ls[1..]) + y);
      NameApart(s, Names(ks[1..]) + x, t, Names(ls[1..]) + y);
      NamesApart(ks[1..], x, ls[1..], y);
      assert ks == [ks[0]] + ks[1..] && ls == [ls[0]] + ls[1..];
    }
  }

  ghost predicate Strings(p: Payload) {
    forall k :: k in p.keys ==> IsRank(k)
  }

  lemma NumbersApart(p: Payload, q: Payload)
    requires Strings(p) && Strings(q) && Numbers(p) == Numbers(q)
    ensures p == q
  {
    var a, b := Numbers(p), Numbers(q);
    assert a[0] == b[0] && a[1] == b[1];
    var x := if p.LeafRec? then p.values else p.children;
    var y := if q.LeafRec? then q.values else q.children;
    assert a[2..] == Names(p.keys) + x && b[2..] == Names(q.keys) + y;
    NamesApart(p.keys, x, q.keys, y);
  }

  ghost function Decoded(b: bytes): Option<Payload> {
    if exists p :: Strings(p) && Ones(Numbers(p)) == b
    then var p :| Strings(p) && Ones(Numbers(p)) == b; Some(p)
    else None
  }

  lemma LosslessExists(crc: Checksum) returns (c: Codec)
    ensures c.crc == crc && Lossless(c)
  {
    c := Codec(crc, p => Ones(Numbers(p)), b => Decoded(b));
    forall p: Payload | Strings(p) ensures c.decode(c.encode(p)) == Some(p) {
      var q := Decoded(Ones(Numbers(p)));
      assert q.Some?;
      OnesApart(Numbers(p), Numbers(q.value));
      NumbersApart(p, q.value);
    }
  }
}
