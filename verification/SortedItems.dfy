/** The reference both index engines are held to: a list of items in increasing key order. */
module SortedItems {
  import opened Prelude
  import opened Bytes
  import opened KeyOrder

  datatype Item = Item(key: Key, value: bytes)

  predicate Sorted(xs: seq<Item>) {
    forall i, j :: 0 <= i < j < |xs| ==> xs[i].key < xs[j].key
  }

  predicate AllBelow(xs: seq<Item>, k: Key) {
    forall i :: 0 <= i < |xs| ==> xs[i].key < k
  }

  predicate AllFrom(xs: seq<Item>, k: Key) {
    forall i :: 0 <= i < |xs| ==> k <= xs[i].key
  }

  predicate AllAbove(xs: seq<Item>, k: Key) {
    forall i :: 0 <= i < |xs| ==> k < xs[i].key
  }

  // Insert, or overwrite.
  function Put(xs: seq<Item>, k: Key, v: bytes): seq<Item> {
    if xs == [] then [Item(k, v)]
    else if xs[0].key < k then [xs[0]] + Put(xs[1..], k, v)
    else if xs[0].key == k then [Item(k, v)] + xs[1..]
    else [Item(k, v)] + xs
  }

  function Remove(xs: seq<Item>, k: Key): seq<Item> {
    if xs == [] then []
    else if xs[0].key == k then xs[1..]
    else [xs[0]] + Remove(xs[1..], k)
  }

  function Find(xs: seq<Item>, k: Key): Option<bytes> {
    if xs == [] then None
    else if xs[0].key == k then Some(xs[0].value)
    else Find(xs[1..], k)
  }

  predicate Within(k: Key, start: Option<Key>, stop: Option<Key>) {
    (start.Some? ==> start.value <= k) && (stop.Some? ==> k < stop.value)
  }

  function Select(xs: seq<Item>, start: Option<Key>, stop: Option<Key>): seq<Item> {
    if xs == [] then []
    else (if Within(xs[0].key, start, stop) then [xs[0]] else []) + Select(xs[1..], start, stop)
  }

  // ----- local changes: only the part that can hold the key matters -----

  lemma {:induction false} PutAfter(a: seq<Item>, b: seq<Item>, k: Key, v: bytes)
    requires AllBelow(a, k)
    ensures Put(a + b, k, v) == a + Put(b, k, v)
  {
    if a == [] {
      assert a + b == b;
    } else {
      assert (a + b)[1..] == a[1..] + b;
      assert (a + b)[0] == a[0];
      PutAfter(a[1..], b, k, v);
      assert a + Put(b, k, v) == [a[0]] + (a[1..] + Put(b, k, v));
    }
  }

  lemma {:induction false} PutBefore(a: seq<Item>, b: seq<Item>, k: Key, v: bytes)
    requires AllAbove(b, k)
    ensures Put(a + b, k, v) == Put(a, k, v) + b
  {
    if a == [] {
      assert a + b == b;
    } else {
      assert (a + b)[1..] == a[1..] + b;
      assert (a + b)[0] == a[0];
      PutBefore(a[1..], b, k, v);
    }
  }

  lemma {:induction false} PutMiddle(a: seq<Item>, b: seq<Item>, c: seq<Item>, k: Key, v: bytes)
    requires AllBelow(a, k) && AllAbove(c, k)
    ensures Put(a + b + c, k, v) == a + Put(b, k, v) + c
  {
    PutBefore(a + b, c, k, v);
    PutAfter(a, b, k, v);
  }

  lemma {:induction false} RemoveAfter(a: seq<Item>, b: seq<Item>, k: Key)
    requires AllBelow(a, k)
    ensures Remove(a + b, k) == a + Remove(b, k)
  {
    if a == [] {
      assert a + b == b;
    } else {
      assert (a + b)[1..] == a[1..] + b && (a + b)[0] == a[0];
      RemoveAfter(a[1..], b, k);
    }
  }

  lemma {:induction false} RemoveBefore(a: seq<Item>, b: seq<Item>, k: Key)
    requires AllAbove(b, k)
    ensures Remove(a + b, k) == Remove(a, k) + b
  {
    if a == [] {
      assert a + b == b;
      RemoveAbsent(b, k);
    } else {
      assert (a + b)[1..] == a[1..] + b && (a + b)[0] == a[0];
      RemoveBefore(a[1..], b, k);
    }
  }

  lemma {:induction false} RemoveMiddle(a: seq<Item>, b: seq<Item>, c: seq<Item>, k: Key)
    requires AllBelow(a, k) && AllAbove(c, k)
    ensures Remove(a + b + c, k) == a + Remove(b, k) + c
  {
    RemoveBefore(a + b, c, k);
    RemoveAfter(a, b, k);
  }

  lemma {:induction false} RemoveAbsent(xs: seq<Item>, k: Key)
    requires forall i :: 0 <= i < |xs| ==> xs[i].key != k
    ensures Remove(xs, k) == xs && Find(xs, k) == None
  {
    if xs != [] {
      RemoveAbsent(xs[1..], k);
    }
  }

  lemma {:induction false} FindMiddle(a: seq<Item>, b: seq<Item>, c: seq<Item>, k: Key)
    requires AllBelow(a, k) && AllAbove(c, k)
    ensures Find(a + b + c, k) == Find(b, k)
  {
    if a != [] {
      assert (a + b + c)[1..] == a[1..] + b + c && (a + b + c)[0] == a[0];
      FindMiddle(a[1..], b, c, k);
    } else if b != [] {
      assert a + b + c == b + c && (b + c)[0] == b[0] && (b + c)[1..] == [] + b[1..] + c;
      FindMiddle([], b[1..], c, k);
    } else {
      assert a + b + c == c;
      if c != [] {
        assert [] + [] + c[1..] == c[1..];
        FindMiddle([], [], c[1..], k);
      }
    }
  }

  // ----- around one item -----

  lemma {:induction false} SortedAround(l: seq<Item>, x: Item, r: seq<Item>)
    requires Sorted(l + [x] + r)
    ensures Sorted(l) && Sorted(r) && AllBelow(l, x.key) && AllAbove(r, x.key)
  {
    var all := l + [x] + r;
    forall i, j | 0 <= i < j < |l| ensures l[i].key < l[j].key { assert all[i] == l[i] && all[j] == l[j]; }
    forall i, j | 0 <= i < j < |r| ensures r[i].key < r[j].key {
      assert all[|l| + 1 + i] == r[i] && all[|l| + 1 + j] == r[j];
    }
    forall i | 0 <= i < |l| ensures l[i].key < x.key { assert all[i] == l[i] && all[|l|] == x; }
    forall i | 0 <= i < |r| ensures x.key < r[i].key { assert all[|l| + 1 + i] == r[i] && all[|l|] == x; }
  }

  lemma {:induction false} BeforeItem(l: seq<Item>, x: Item, r: seq<Item>, k: Key, v: bytes)
    requires AllAbove(r, x.key) && k < x.key
    ensures Put(l + [x] + r, k, v) == Put(l, k, v) + [x] + r
    ensures Remove(l + [x] + r, k) == Remove(l, k) + [x] + r
    ensures Find(l + [x] + r, k) == Find(l, k)
  {
    assert l + [x] + r == [] + l + ([x] + r);
    assert AllAbove([x] + r, k);
    PutMiddle([], l, [x] + r, k, v);
    RemoveMiddle([], l, [x] + r, k);
    FindMiddle([], l, [x] + r, k);
    assert [] + Put(l, k, v) + ([x] + r) == Put(l, k, v) + [x] + r;
    assert [] + Remove(l, k) + ([x] + r) == Remove(l, k) + [x] + r;
  }

  lemma {:induction false} AfterItem(l: seq<Item>, x: Item, r: seq<Item>, k: Key, v: bytes)
    requires AllBelow(l, x.key) && x.key < k
    ensures Put(l + [x] + r, k, v) == l + [x] + Put(r, k, v)
    ensures Remove(l + [x] + r, k) == l + [x] + Remove(r, k)
    ensures Find(l + [x] + r, k) == Find(r, k)
  {
    assert l + [x] + r == (l + [x]) + r + [];
    assert AllBelow(l + [x], k);
    PutMiddle(l + [x], r, [], k, v);
    RemoveMiddle(l + [x], r, [], k);
    FindMiddle(l + [x], r, [], k);
  }

  lemma {:induction false} AtItem(l: seq<Item>, x: Item, r: seq<Item>, v: bytes)
    requires AllBelow(l, x.key) && AllAbove(r, x.key)
    ensures Put(l + [x] + r, x.key, v) == l + [Item(x.key, v)] + r
    ensures Remove(l + [x] + r, x.key) == l + r
    ensures Find(l + [x] + r, x.key) == Some(x.value)
  {
    PutMiddle(l, [x], r, x.key, v);
    RemoveMiddle(l, [x], r, x.key);
    FindMiddle(l, [x], r, x.key);
    assert [x][1..] == [];
    assert l + [] + r == l + r;
  }

  lemma {:induction false} SelectConcat(a: seq<Item>, b: seq<Item>, start: Option<Key>, stop: Option<Key>)
    ensures Select(a + b, start, stop) == Select(a, start, stop) + Select(b, start, stop)
  {
    if a == [] {
      assert a + b == b;
    } else {
      assert (a + b)[1..] == a[1..] + b && (a + b)[0] == a[0];
      SelectConcat(a[1..], b, start, stop);
      var head := if Within(a[0].key, start, stop) then [a[0]] else [];
      var x, y := Select(a[1..], start, stop), Select(b, start, stop);
      assert head + (x + y) == (head + x) + y;
    }
  }

  lemma {:induction false} SelectNone(xs: seq<Item>, start: Option<Key>, stop: Option<Key>)
    requires forall i :: 0 <= i < |xs| ==> !Within(xs[i].key, start, stop)
    ensures Select(xs, start, stop) == []
  {
    if xs != [] {
      SelectNone(xs[1..], start, stop);
    }
  }

  // ----- the list read as a finite map -----

  function ToMap(xs: seq<Item>): map<Key, bytes> {
    if xs == [] then map[] else ToMap(xs[1..])[xs[0].key := xs[0].value]
  }

  predicate HasKey(xs: seq<Item>, k: Key) {
    exists i :: 0 <= i < |xs| && xs[i].key == k
  }

  lemma {:induction false} FindIsLookup(xs: seq<Item>, k: Key)
    ensures Find(xs, k) == if k in ToMap(xs) then Some(ToMap(xs)[k]) else None
    ensures HasKey(xs, k) <==> k in ToMap(xs)
  {
    if xs != [] {
      FindIsLookup(xs[1..], k);
      if HasKey(xs[1..], k) {
        var i :| 0 <= i < |xs[1..]| && xs[1..][i].key == k;
        assert xs[i + 1].key == k;
      }
      if HasKey(xs, k) && xs[0].key != k {
        var i :| 0 <= i < |xs| && xs[i].key == k;
        assert xs[1..][i - 1].key == k;
      }
    }
  }

  lemma {:induction false} PutStaysAbove(xs: seq<Item>, k: Key, v: bytes, b: Key)
    requires AllAbove(xs, b) && b < k
    ensures AllAbove(Put(xs, k, v), b)
  {
    if xs != [] {
      PutStaysAbove(xs[1..], k, v, b);
    }
  }

  lemma {:induction false} PutSorted(xs: seq<Item>, k: Key, v: bytes)
    requires Sorted(xs)
    ensures Sorted(Put(xs, k, v))
  {
    if xs != [] && xs[0].key < k {
      PutSorted(xs[1..], k, v);
      PutStaysAbove(xs[1..], k, v, xs[0].key);
    }
  }

  lemma {:induction false} PutIsUpdate(xs: seq<Item>, k: Key, v: bytes)
    requires Sorted(xs)
    ensures Sorted(Put(xs, k, v))
    ensures ToMap(Put(xs, k, v)) == ToMap(xs)[k := v]
    ensures |Put(xs, k, v)| == |xs| + if Find(xs, k).Some? then 0 else 1
  {
    PutSorted(xs, k, v);
    if xs != [] {
      PutIsUpdate(xs[1..], k, v);
      if xs[0].key >= k {
        AboveAbsent(xs[1..], k);
        assert ([Item(k, v)] + xs)[1..] == xs && ([Item(k, v)] + xs[1..])[1..] == xs[1..];
      }
    }
  }

  lemma {:induction false} AboveAbsent(xs: seq<Item>, k: Key)
    requires AllAbove(xs, k)
    ensures Find(xs, k) == None && k !in ToMap(xs)
  {
    if xs != [] {
      AboveAbsent(xs[1..], k);
    }
  }

  lemma {:induction false} RemoveIsDeletion(xs: seq<Item>, k: Key)
    requires Sorted(xs)
    ensures Sorted(Remove(xs, k))
    ensures ToMap(Remove(xs, k)) == ToMap(xs) - {k}
    ensures |Remove(xs, k)| == |xs| - if Find(xs, k).Some? then 1 else 0
    ensures forall b :: AllAbove(xs, b) ==> AllAbove(Remove(xs, k), b)
  {
    if xs != [] {
      RemoveIsDeletion(xs[1..], k);
      assert AllAbove(xs[1..], xs[0].key);
      if xs[0].key == k {
        AboveAbsent(xs[1..], k);
      } else {
        assert ToMap(xs) - {k} == (ToMap(xs[1..]) - {k})[xs[0].key := xs[0].value];
      }
    }
  }

  // A sorted list is the one sorted listing of its map, and as long as the map is large.
  lemma {:induction false} MapSize(xs: seq<Item>)
    requires Sorted(xs)
    ensures |ToMap(xs)| == |xs|
  {
    if xs != [] {
      MapSize(xs[1..]);
      AboveAbsent(xs[1..], xs[0].key);
    }
  }

  lemma {:induction false} SameMapSameList(xs: seq<Item>, ys: seq<Item>)
    requires Sorted(xs) && Sorted(ys) && ToMap(xs) == ToMap(ys)
    ensures xs == ys
  {
    MapSize(xs);
    MapSize(ys);
    if xs != [] {
      var x, y := xs[0], ys[0];
      FindIsLookup(xs, y.key);
      FindIsLookup(ys, x.key);
      FindIsLookup(xs, x.key);
      FindIsLookup(ys, y.key);
      assert HasKey(xs, x.key) && HasKey(ys, y.key);
      assert x == y;
      AboveAbsent(xs[1..], x.key);
      AboveAbsent(ys[1..], x.key);
      assert ToMap(xs[1..]) == ToMap(xs) - {x.key};
      assert ToMap(ys[1..]) == ToMap(ys) - {x.key};
      SameMapSameList(xs[1..], ys[1..]);
    }
  }
}
