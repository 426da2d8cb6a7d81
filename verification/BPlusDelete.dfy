/** Deleting from a B+ tree keeps it well formed, rebalancing included, and is deletion from the
    sorted list of items. */
module BPlusDelete {
  import opened Prelude
  import opened KeyOrder
  import opened SortedItems
  import opened BPlusTree
  import opened BPlusInvariant
  import opened BPlusInsert

  // ----- rebalancing moves items between neighbours, and none appears or vanishes -----

  lemma {:induction false} FlatOne(c: Tree)
    requires Shaped(c)
    ensures Flat([c]) == Items(c)
  {
    assert [c][1..] == [] && Flat([]) == [];
  }

  lemma {:induction false} FlatTwo(c: Tree, d: Tree)
    requires Shaped(c) && Shaped(d)
    ensures Flat([c, d]) == Items(c) + Items(d)
  {
    FlatOne(d);
    assert [c, d][1..] == [d];
  }

  // The last entry of one leaf, moved to the front of the next.
  lemma {:induction false} MovedLeaf(ks: seq<Key>, vs: seq<ValueRef>, keys: seq<Key>, values: seq<ValueRef>)
    requires |ks| == |vs| > 0 && |keys| == |values|
    ensures var n := |ks| - 1;
            LeafItems(ks[..n], vs[..n]) + LeafItems([ks[n]] + keys, [vs[n]] + values) ==
                LeafItems(ks, vs) + LeafItems(keys, values)
  {
    hide LeafItems;
  }

  lemma {:induction false} MovedChild(cs: seq<Tree>, children: seq<Tree>)
    requires |cs| > 0 && (forall c :: c in cs ==> Shaped(c)) && forall c :: c in children ==> Shaped(c)
    ensures var n := |cs| - 1; Flat(cs[..n]) + Flat([cs[n]] + children) == Flat(cs) + Flat(children)
  {
    hide Shaped, Flat;
    var n := |cs| - 1;
    var a, b := cs[..n], [cs[n]];
    assert cs == a + b;
    FlatConcat(a, b);
    FlatConcat(b, children);
  }

  lemma {:induction false} BorrowLeftItems(left: Tree, sep: Key, child: Tree)
    requires Shaped(left) && Shaped(child) && Height(left) == Height(child) && |left.keys| > 0
    ensures var r := BorrowFromLeft(left, sep, child); Items(r.0) + Items(r.2) == Items(left) + Items(child)
  {
    hide Flat;
    if child.Leaf? {
      MovedLeaf(left.keys, left.values, child.keys, child.values);
    } else {
      MovedChild(left.children, child.children);
    }
  }

  lemma {:induction false} BorrowRightItems(child: Tree, sep: Key, right: Tree)
    requires Shaped(right) && Shaped(child) && Height(right) == Height(child) && |right.keys| > 1
    ensures var r := BorrowFromRight(child, sep, right); Items(r.0) + Items(r.2) == Items(child) + Items(right)
  {
    var r := BorrowFromRight(child, sep, right);
    if child.Internal? {
      var a, b := [right.children[0]], right.children[1..];
      assert right.children == a + b;
      FlatConcat(a, b);
      FlatConcat(child.children, a);
    }
  }

  lemma {:induction false} MergeItems(left: Tree, sep: Key, right: Tree)
    requires Shaped(left) && Shaped(right) && Height(left) == Height(right)
    ensures Items(Merge(left, sep, right)) == Items(left) + Items(right)
  {
    if left.Internal? {
      FlatConcat(left.children, right.children);
    }
  }

  lemma {:induction false} PairItems(children: seq<Tree>, i: nat, cs: seq<Tree>)
    requires i + 1 < |children| && forall c :: c in children + cs ==> Shaped(c)
    requires forall c :: c in cs ==> c in children + cs
    requires forall c :: c in children ==> c in children + cs
    requires Flat(cs) == Items(children[i]) + Items(children[i + 1])
    ensures forall c :: c in children[..i] + cs + children[i + 2..] ==> Shaped(c)
    ensures Flat(children[..i] + cs + children[i + 2..]) == Flat(children)
  {
    FlatThree(children, i, i + 2);
    assert children[i..i + 2] == [children[i], children[i + 1]];
    FlatTwo(children[i], children[i + 1]);
    FlatConcat(children[..i] + cs, children[i + 2..]);
    FlatConcat(children[..i], cs);
  }

  lemma {:induction false} RebalanceItems(order: nat, keys: seq<Key>, children: seq<Tree>, i: nat)
    requires order >= 3 && |keys| >= 1 && i <= |keys| && Shaped(NewInternal(keys, children))
    ensures Items(Rebalance(order, keys, children, i)) == Flat(children)
  {
    hide BorrowFromLeft, BorrowFromRight, Merge, Flat, Height;
    var min := order / 2;
    if i > 0 && |children[i - 1].keys| > min {
      var r := BorrowFromLeft(children[i - 1], keys[i - 1], children[i]);
      BorrowLeftItems(children[i - 1], keys[i - 1], children[i]);
      FlatTwo(r.0, r.2);
      PairItems(children, i - 1, [r.0, r.2]);
    } else if i < |keys| && |children[i + 1].keys| > min {
      var r := BorrowFromRight(children[i], keys[i], children[i + 1]);
      BorrowRightItems(children[i], keys[i], children[i + 1]);
      FlatTwo(r.0, r.2);
      PairItems(children, i, [r.0, r.2]);
    } else {
      var j := if i > 0 then i - 1 else i;
      var m := Merge(children[j], keys[j], children[j + 1]);
      MergeItems(children[j], keys[j], children[j + 1]);
      FlatOne(m);
      PairItems(children, j, [m]);
    }
  }

  // ----- rebalancing keeps the bounds and restores the occupancy -----

  lemma {:induction false} KidsJoin(order: nat, lo: Bound, s: Key, hi: Bound, h: nat,
                 ka: seq<Key>, ca: seq<Tree>, kb: seq<Key>, cb: seq<Tree>)
    requires Kids(order, lo, Some(s), h, ka, ca) && Kids(order, Some(s), hi, h, kb, cb)
    requires Above(lo, s) && Below(s, hi)
    ensures Kids(order, lo, hi, h, ka + [s] + kb, ca + cb)
  {
    hide Child;
    var keys, children, n := ka + [s] + kb, ca + cb, |ca|;
    assert forall x :: n <= x < |keys| ==> keys[x] == kb[x - n];
    forall x | 0 <= x < |children| ensures Child(order, Lower(lo, keys, x), Upper(keys, hi, x), h, children[x]) {
      if x < n {
        assert Child(order, Lower(lo, ka, x), Upper(ka, Some(s), x), h, ca[x]);
      } else {
        assert Child(order, Lower(Some(s), kb, x - n), Upper(kb, hi, x - n), h, cb[x - n]);
      }
    }
  }

  lemma {:induction false} OneKid(order: nat, lo: Bound, hi: Bound, h: nat, c: Tree)
    requires Child(order, lo, hi, h, c)
    ensures Kids(order, lo, hi, h, [], [c])
  {
    hide Child;
  }

  // Two neighbours and the separator between them fill the interval from `lo` to `hi`.
  ghost predicate Neighbours(order: nat, lo: Bound, hi: Bound, h: nat, a: Tree, s: Key, b: Tree) {
    Above(lo, s) && Below(s, hi) && Child(order, lo, Some(s), h, a) && Child(order, Some(s), hi, h, b)
  }

  lemma {:induction false} NeighboursKids(order: nat, lo: Bound, hi: Bound, h: nat, a: Tree, s: Key, b: Tree)
    requires Neighbours(order, lo, hi, h, a, s, b)
    ensures Kids(order, lo, hi, h, [s], [a, b])
  {
    hide Child;
    OneKid(order, lo, Some(s), h, a);
    OneKid(order, Some(s), hi, h, b);
    KidsJoin(order, lo, s, hi, h, [], [a], [], [b]);
    assert [] + [s] + [] == [s] && [a] + [b] == [a, b];
  }

  // Two neighbours, of which one may be one key short.
  ghost predicate Uneven(order: nat, lo: Bound, hi: Bound, h: nat, a: Tree, s: Key, b: Tree) {
    && order >= 3
    && Above(lo, s) && Below(s, hi)
    && WF(order, a, lo, Some(s), h) && WF(order, b, Some(s), hi, h)
  }

  lemma {:induction false} BorrowLeftLeafOK(order: nat, lo: Bound, hi: Bound, h: nat, a: Tree, s: Key, b: Tree)
    requires Uneven(order, lo, hi, h, a, s, b) && a.Leaf?
    requires order / 2 < |a.keys| <= order && |b.keys| == order / 2 - 1
    requires Shaped(a) && Shaped(b) && Height(a) == Height(b)
    ensures var r := BorrowFromLeft(a, s, b); Neighbours(order, lo, hi, h, r.0, r.1, r.2)
  {
    assert a.keys[0] < a.keys[|a.keys| - 1];
  }

  lemma {:induction false} BorrowLeftOK(order: nat, lo: Bound, hi: Bound, h: nat, a: Tree, s: Key, b: Tree)
    requires Uneven(order, lo, hi, h, a, s, b)
    requires order / 2 < |a.keys| <= order && |b.keys| == order / 2 - 1
    requires Shaped(a) && Shaped(b) && Height(a) == Height(b)
    ensures var r := BorrowFromLeft(a, s, b); Neighbours(order, lo, hi, h, r.0, r.1, r.2)
  {
    if a.Leaf? {
      BorrowLeftLeafOK(order, lo, hi, h, a, s, b);
    } else {
      var n := |a.keys| - 1;
      SplitKids(order, lo, Some(s), h - 1, a.keys, a.children, n);
      assert a.keys[n + 1..] == [] && a.children[n + 1..] == [a.children[n + 1]];
      KidsJoin(order, Some(a.keys[n]), s, hi, h - 1, [], [a.children[n + 1]], b.keys, b.children);
      assert [] + [s] + b.keys == [s] + b.keys;
    }
  }

  lemma {:induction false} BorrowRightOK(order: nat, lo: Bound, hi: Bound, h: nat, a: Tree, s: Key, b: Tree)
    requires Uneven(order, lo, hi, h, a, s, b)
    requires order / 2 < |b.keys| <= order && |a.keys| == order / 2 - 1
    requires Shaped(a) && Shaped(b) && Height(a) == Height(b)
    ensures var r := BorrowFromRight(a, s, b); Neighbours(order, lo, hi, h, r.0, r.1, r.2)
  {
    if a.Leaf? {
      assert b.keys[0] < b.keys[1];
    } else {
      SplitKids(order, Some(s), hi, h - 1, b.keys, b.children, 0);
      assert b.keys[..0] == [] && b.children[..1] == [b.children[0]];
      KidsJoin(order, lo, s, Some(b.keys[0]), h - 1, a.keys, a.children, [], [b.children[0]]);
      assert a.keys + [s] + [] == a.keys + [s];
    }
  }

  lemma {:induction false} MergeOK(order: nat, lo: Bound, hi: Bound, h: nat, a: Tree, s: Key, b: Tree)
    requires Uneven(order, lo, hi, h, a, s, b)
    requires |a.keys| + |b.keys| + 1 <= 2 * (order / 2) && order / 2 <= |a.keys| + |b.keys|
    requires Shaped(a) && Shaped(b) && Height(a) == Height(b)
    ensures Child(order, lo, hi, h, Merge(a, s, b))
  {
    if a.Internal? {
      KidsJoin(order, lo, s, hi, h - 1, a.keys, a.children, b.keys, b.children);
    }
  }

  lemma {:induction false} PairOf(order: nat, lo: Bound, hi: Bound, h: nat, keys: seq<Key>, children: seq<Tree>, j: nat)
    requires Kids(order, lo, hi, h, keys, children) && j < |keys|
    ensures |children| == |keys| + 1
    ensures Neighbours(order, Lower(lo, keys, j), Upper(keys, hi, j + 1), h, children[j], keys[j], children[j + 1])
  {
    hide Child;
    assert Child(order, Lower(lo, keys, j), Upper(keys, hi, j), h, children[j]);
    assert Child(order, Lower(lo, keys, j + 1), Upper(keys, hi, j + 1), h, children[j + 1]);
  }

  // A pair of children replaced by a pair.
  lemma {:induction false} ReplacePairOK(order: nat, lo: Bound, hi: Bound, h: nat, keys: seq<Key>,
                                         children: seq<Tree>, j: nat,
                      a: Tree, s: Key, b: Tree)
    requires Kids(order, lo, hi, h, keys, children) && j < |keys|
    requires Neighbours(order, Lower(lo, keys, j), Upper(keys, hi, j + 1), h, a, s, b)
    ensures |children| == |keys| + 1
    ensures Kids(order, lo, hi, h, keys[j := s], children[..j] + [a, b] + children[j + 2..])
  {
    hide Child;
    NeighboursKids(order, Lower(lo, keys, j), Upper(keys, hi, j + 1), h, a, s, b);
    KidsReplace(order, lo, hi, h, keys, children, j, j + 2, [s], [a, b]);
    assert keys[..j] + [s] + keys[j + 1..] == keys[j := s];
  }

  // A pair of children replaced by one.
  lemma {:induction false} MergePairOK(order: nat, lo: Bound, hi: Bound, h: nat, keys: seq<Key>, children: seq<Tree>,
                                       j: nat, m: Tree)
    requires Kids(order, lo, hi, h, keys, children) && j < |keys|
    requires Child(order, Lower(lo, keys, j), Upper(keys, hi, j + 1), h, m)
    ensures |children| == |keys| + 1
    ensures Kids(order, lo, hi, h, keys[..j] + keys[j + 1..], children[..j] + [m] + children[j + 2..])
  {
    hide Child;
    OneKid(order, Lower(lo, keys, j), Upper(keys, hi, j + 1), h, m);
    KidsReplace(order, lo, hi, h, keys, children, j, j + 2, [], [m]);
    assert keys[..j] + [] + keys[j + 1..] == keys[..j] + keys[j + 1..];
  }

  // `child` stands at position `i` of a node, one key short.
  ghost predicate Short(order: nat, lo: Bound, hi: Bound, h: nat, keys: seq<Key>, children: seq<Tree>, i: nat,
                        child: Tree) {
    && order >= 3 && |keys| >= 1
    && Kids(order, lo, hi, h, keys, children) && i < |children|
    && WF(order, child, Lower(lo, keys, i), Upper(keys, hi, i), h)
    && |child.keys| == order / 2 - 1
  }

  lemma {:induction false} ShortShaped(order: nat, lo: Bound, hi: Bound, h: nat, keys: seq<Key>, children: seq<Tree>,
                                       i: nat, child: Tree)
    requires Short(order, lo, hi, h, keys, children, i, child)
    ensures |children| == |keys| + 1
    ensures Shaped(child) && Height(child) == h
    ensures forall c :: c in children ==> Shaped(c) && Height(c) == h
    ensures i <= |keys| && Shaped(NewInternal(keys, children[i := child]))
  {
    hide WF;
    WFShaped(order, child, Lower(lo, keys, i), Upper(keys, hi, i), h);
    KidsShaped(order, lo, hi, h, keys, children);
    var cs := children[i := child];
    forall c | c in cs ensures Shaped(c) && Height(c) == h {
      assert c == child || c in children;
    }
    assert Height(NewInternal(keys, cs)) == h + 1;
  }

  // Borrowing or merging with the left neighbour.
  lemma {:induction false} FixWithLeft(order: nat, lo: Bound, hi: Bound, h: nat, keys: seq<Key>, children: seq<Tree>,
                                       i: nat, child: Tree)
    requires Short(order, lo, hi, h, keys, children, i, child) && i > 0 && |children| == |keys| + 1
    requires Shaped(child) && Shaped(children[i - 1]) && Height(child) == Height(children[i - 1])
    ensures |children[i - 1].keys| > order / 2 ==>
              var r := BorrowFromLeft(children[i - 1], keys[i - 1], child);
              Kids(order, lo, hi, h, keys[i - 1 := r.1], children[..i - 1] + [r.0, r.2] + children[i + 1..])
    ensures |children[i - 1].keys| <= order / 2 ==>
              Kids(order, lo, hi, h, keys[..i - 1] + keys[i..],
                   children[..i - 1] + [Merge(children[i - 1], keys[i - 1], child)] + children[i + 1..])
  {
    hide Kids, WF, BorrowFromLeft, Merge, Shaped;
    PairOf(order, lo, hi, h, keys, children, i - 1);
    var l, u := Lower(lo, keys, i - 1), Upper(keys, hi, i);
    assert Uneven(order, l, u, h, children[i - 1], keys[i - 1], child);
    if |children[i - 1].keys| > order / 2 {
      BorrowLeftOK(order, l, u, h, children[i - 1], keys[i - 1], child);
      var r := BorrowFromLeft(children[i - 1], keys[i - 1], child);
      ReplacePairOK(order, lo, hi, h, keys, children, i - 1, r.0, r.1, r.2);
    } else {
      MergeOK(order, l, u, h, children[i - 1], keys[i - 1], child);
      MergePairOK(order, lo, hi, h, keys, children, i - 1, Merge(children[i - 1], keys[i - 1], child));
    }
  }

  lemma {:induction false} FixWithRight(order: nat, lo: Bound, hi: Bound, h: nat, keys: seq<Key>, children: seq<Tree>,
                                        i: nat, child: Tree)
    requires Short(order, lo, hi, h, keys, children, i, child) && i < |keys| && |children| == |keys| + 1
    requires Shaped(child) && Shaped(children[i + 1]) && Height(child) == Height(children[i + 1])
    ensures |children[i + 1].keys| > order / 2 ==>
              var r := BorrowFromRight(child, keys[i], children[i + 1]);
              Kids(order, lo, hi, h, keys[i := r.1], children[..i] + [r.0, r.2] + children[i + 2..])
    ensures |children[i + 1].keys| <= order / 2 ==>
              Kids(order, lo, hi, h, keys[..i] + keys[i + 1..],
                   children[..i] + [Merge(child, keys[i], children[i + 1])] + children[i + 2..])
  {
    hide Kids, WF, BorrowFromRight, Merge, Shaped;
    PairOf(order, lo, hi, h, keys, children, i);
    var l, u := Lower(lo, keys, i), Upper(keys, hi, i + 1);
    assert Uneven(order, l, u, h, child, keys[i], children[i + 1]);
    if |children[i + 1].keys| > order / 2 {
      BorrowRightOK(order, l, u, h, child, keys[i], children[i + 1]);
      var r := BorrowFromRight(child, keys[i], children[i + 1]);
      ReplacePairOK(order, lo, hi, h, keys, children, i, r.0, r.1, r.2);
    } else {
      MergeOK(order, l, u, h, child, keys[i], children[i + 1]);
      MergePairOK(order, lo, hi, h, keys, children, i, Merge(child, keys[i], children[i + 1]));
    }
  }

  // The repaired node is well formed and has lost at most one separator.
  lemma {:induction false} RebalanceOK(order: nat, lo: Bound, hi: Bound, h: nat, keys: seq<Key>, children: seq<Tree>,
                                       i: nat, child: Tree)
    requires Short(order, lo, hi, h, keys, children, i, child)
    ensures i <= |keys| && Shaped(NewInternal(keys, children[i := child]))
    ensures var r := Rebalance(order, keys, children[i := child], i);
            WF(order, r, lo, hi, h + 1) && |keys| - 1 <= |r.keys| <= |keys|
  {
    hide WF, BorrowFromRight, BorrowFromLeft, Merge, Shaped, Child, Separators, Height, Kids;
    ShortShaped(order, lo, hi, h, keys, children, i, child);
    var cs := children[i := child];
    if i > 0 {
      FixWithLeft(order, lo, hi, h, keys, children, i, child);
      assert cs[..i - 1] == children[..i - 1] && cs[i + 1..] == children[i + 1..];
    }
    if i < |keys| {
      FixWithRight(order, lo, hi, h, keys, children, i, child);
      assert cs[..i] == children[..i] && cs[i + 2..] == children[i + 2..];
    }
    var r := Rebalance(order, keys, cs, i);
    InternalWF(order, lo, hi, h, r.keys, r.children);
  }

  lemma {:induction false} InternalWF(order: nat, lo: Bound, hi: Bound, h: nat, keys: seq<Key>, children: seq<Tree>)
    requires Kids(order, lo, hi, h, keys, children) && h >= 1
    ensures WF(order, NewInternal(keys, children), lo, hi, h + 1)
  {
  }

  // ----- the recursive deletion -----

  lemma {:induction false} WFSeparated(order: nat, t: Tree, lo: Bound, hi: Bound, h: nat)
    requires order >= 3 && WF(order, t, lo, hi, h) && (t.Internal? ==> |t.keys| >= 1)
    ensures Separated(t)
    decreases h
  {
    if t.Internal? {
      forall c | c in t.children ensures Separated(c) {
        var i :| 0 <= i < |t.children| && t.children[i] == c;
        assert Child(order, Lower(lo, t.keys, i), Upper(t.keys, hi, i), h - 1, t.children[i]);
        WFSeparated(order, c, Lower(lo, t.keys, i), Upper(t.keys, hi, i), h - 1);
      }
    }
  }

  // `r` is what a node of `size` keys for the items `xs` becomes when `k` is deleted from it.
  ghost predicate Shrunk(order: nat, lo: Bound, hi: Bound, h: nat, size: nat, xs: seq<Item>, k: Key, r: Option<Tree>) {
    && (r.None? <==> Find(xs, k).None?)
    && (r.Some? ==>
          && Shaped(r.value) && WF(order, r.value, lo, hi, h)
          && size - 1 <= |r.value.keys| <= size
          && Items(r.value) == Remove(xs, k))
  }

  lemma {:induction false} LeafDrop(keys: seq<Key>, values: seq<ValueRef>, i: nat)
    requires |keys| == |values| && SortedKeys(keys) && i < |keys|
    ensures LeafItems(keys[..i] + keys[i + 1..], values[..i] + values[i + 1..]) ==
            Remove(LeafItems(keys, values), keys[i])
  {
    var xs := LeafItems(keys, values);
    assert xs == xs[..i] + [xs[i]] + xs[i + 1..];
    RemoveMiddle(xs[..i], [xs[i]], xs[i + 1..], keys[i]);
    assert Remove([xs[i]], keys[i]) == [];
    var ks, vs := keys[..i] + keys[i + 1..], values[..i] + values[i + 1..];
    var y, z := LeafItems(ks, vs), xs[..i] + [] + xs[i + 1..];
    forall j | 0 <= j < |y| ensures y[j] == z[j] {
      if j >= i {
        assert ks[j] == keys[j + 1] && vs[j] == values[j + 1];
      }
    }
  }

  lemma {:induction false} DeleteLeafOK(order: nat, t: Tree, lo: Bound, hi: Bound, k: Key)
    requires order >= 3 && t.Leaf? && WF(order, t, lo, hi, 1)
    ensures Shrunk(order, lo, hi, 1, |t.keys|, Items(t), k, DeleteRec(order, t, k))
  {
    hide LeafItems, Remove, Find, BisectLeft;
    var i := BisectLeft(t.keys, k);
    LeafFind(t.keys, t.values, k);
    if i < |t.keys| && t.keys[i] == k {
      LeafDrop(t.keys, t.values, i);
      KeysDrop(lo, hi, t.keys, i);
    }
  }

  lemma {:induction false} KeysDrop(lo: Bound, hi: Bound, keys: seq<Key>, i: nat)
    requires SortedKeys(keys) && i < |keys|
    requires forall j :: 0 <= j < |keys| ==> From(lo, keys[j]) && Below(keys[j], hi)
    ensures var r := keys[..i] + keys[i + 1..];
            SortedKeys(r) && forall j :: 0 <= j < |r| ==> From(lo, r[j]) && Below(r[j], hi)
  {
    var r := keys[..i] + keys[i + 1..];
    assert forall j :: i <= j < |r| ==> r[j] == keys[j + 1];
  }

  // The items of a node whose child at `i` has lost `k`.
  lemma {:induction false} ChildLostKey(order: nat, lo: Bound, hi: Bound, h: nat, keys: seq<Key>, children: seq<Tree>,
                                        k: Key, c: Tree)
    requires Kids(order, lo, hi, h, keys, children) && Shaped(c)
    requires var i := BisectRight(keys, k);
             i < |children| && Shaped(children[i]) && Items(c) == Remove(Items(children[i]), k)
    ensures forall c :: c in children ==> Shaped(c)
    ensures var i := BisectRight(keys, k);
            && (forall d :: d in children[i := c] ==> Shaped(d))
            && Flat(children[i := c]) == Remove(Flat(children), k)
  {
    hide Child, Separators;
    var i := BisectRight(keys, k);
    OnlyChild(order, lo, hi, h, keys, children, k);
    RemoveMiddle(Flat(children[..i]), Items(children[i]), Flat(children[i + 1..]), k);
    var cs := children[i := c];
    forall d | d in cs ensures Shaped(d) {
      assert d == c || d in children;
    }
    FlatThree(cs, i, i + 1);
    assert cs[..i] == children[..i] && cs[i..i + 1] == [c] && cs[i + 1..] == children[i + 1..];
    FlatOne(c);
  }

  lemma {:induction false} DeleteInternalOK(order: nat, lo: Bound, hi: Bound, h: nat, keys: seq<Key>,
                                            children: seq<Tree>, i: nat, k: Key, c: Option<Tree>)
    requires order >= 3 && |keys| >= 1 && h >= 1 && Kids(order, lo, hi, h, keys, children)
    requires i == BisectRight(keys, k) && i < |children| && Shaped(children[i])
    requires order / 2 <= |children[i].keys| <= order
    requires Shrunk(order, Lower(lo, keys, i), Upper(keys, hi, i), h, |children[i].keys|, Items(children[i]), k, c)
    ensures forall c :: c in children ==> Shaped(c)
    ensures |children| == |keys| + 1
    ensures c.None? ==> Find(Flat(children), k).None?
    ensures c.Some? ==>
              var cs := children[i := c.value];
              && Find(Flat(children), k).Some?
              && if |c.value.keys| >= order / 2
                 then Shrunk(order, lo, hi, h + 1, |keys|, Flat(children), k, Some(NewInternal(keys, cs)))
                 else
                   && Shaped(NewInternal(keys, cs))
                   && Shrunk(order, lo, hi, h + 1, |keys|, Flat(children), k, Some(Rebalance(order, keys, cs, i)))
  {
    hide WF, Rebalance, Separators, Items, Flat;
    OnlyChild(order, lo, hi, h, keys, children, k);
    FindMiddle(Flat(children[..i]), Items(children[i]), Flat(children[i + 1..]), k);
    if c.Some? {
      var cs := children[i := c.value];
      ChildLostKey(order, lo, hi, h, keys, children, k, c.value);
      if |c.value.keys| >= order / 2 {
        ChildSwap(order, lo, hi, h, keys, children, i, c.value);
        InternalItems(keys, cs);
      } else {
        RebalanceOK(order, lo, hi, h, keys, children, i, c.value);
        RebalanceItems(order, keys, cs, i);
      }
    }
  }

  lemma {:induction false} InternalItems(keys: seq<Key>, children: seq<Tree>)
    requires Shaped(NewInternal(keys, children))
    ensures Items(NewInternal(keys, children)) == Flat(children)
  {
  }

  lemma {:induction false} ChildSwap(order: nat, lo: Bound, hi: Bound, h: nat, keys: seq<Key>, children: seq<Tree>,
                                     i: nat, c: Tree)
    requires Kids(order, lo, hi, h, keys, children) && i < |children| && i <= |keys| && h >= 1
    requires Child(order, Lower(lo, keys, i), Upper(keys, hi, i), h, c)
    ensures WF(order, NewInternal(keys, children[i := c]), lo, hi, h + 1)
    ensures Shaped(NewInternal(keys, children[i := c]))
  {
    hide Kids, Child;
    KidsSwap(order, lo, hi, h, keys, children, i, c);
    InternalWF(order, lo, hi, h, keys, children[i := c]);
    WFShaped(order, NewInternal(keys, children[i := c]), lo, hi, h + 1);
  }

  lemma {:induction false} KidsSwap(order: nat, lo: Bound, hi: Bound, h: nat, keys: seq<Key>, children: seq<Tree>,
                                    i: nat, c: Tree)
    requires Kids(order, lo, hi, h, keys, children) && i < |children| && i <= |keys|
    requires Child(order, Lower(lo, keys, i), Upper(keys, hi, i), h, c)
    ensures Kids(order, lo, hi, h, keys, children[i := c])
  {
    hide Child, Separators;
  }

  lemma {:induction false} DeleteRecOK(order: nat, t: Tree, lo: Bound, hi: Bound, h: nat, k: Key)
    requires order >= 3 && WF(order, t, lo, hi, h) && (t.Internal? ==> |t.keys| >= 1)
    requires From(lo, k) && Below(k, hi)
    ensures Shaped(t) && Separated(t)
    ensures Shrunk(order, lo, hi, h, |t.keys|, Items(t), k, DeleteRec(order, t, k))
    decreases h
  {
    WFSeparated(order, t, lo, hi, h);
    WFShaped(order, t, lo, hi, h);
    if t.Leaf? {
      DeleteLeafOK(order, t, lo, hi, k);
    } else {
      DeleteBelow(order, t, lo, hi, h, k);
    }
  }

  lemma {:induction false} DeleteBelow(order: nat, t: Tree, lo: Bound, hi: Bound, h: nat, k: Key)
    requires order >= 3 && t.Internal? && WF(order, t, lo, hi, h) && |t.keys| >= 1
    requires From(lo, k) && Below(k, hi) && Shaped(t) && Separated(t)
    ensures Shrunk(order, lo, hi, h, |t.keys|, Items(t), k, DeleteRec(order, t, k))
    decreases h, 0
  {
    hide Kids, Shrunk, Rebalance, Flat, Find, Remove, BisectRight;
    var i := BisectRight(t.keys, k);
    ChildBounds(order, lo, hi, h - 1, t.keys, t.children, k);
    var c := t.children[i];
    DeleteRecOK(order, c, Lower(lo, t.keys, i), Upper(t.keys, hi, i), h - 1, k);
    var r := DeleteRec(order, c, k);
    DeleteInternalOK(order, lo, hi, h - 1, t.keys, t.children, i, k, r);
    AbsentShrunk(order, lo, hi, h, |t.keys|, Items(t), k);
  }

  lemma {:induction false} AbsentShrunk(order: nat, lo: Bound, hi: Bound, h: nat, size: nat, xs: seq<Item>, k: Key)
    ensures Find(xs, k).None? ==> Shrunk(order, lo, hi, h, size, xs, k, None)
    ensures forall r :: Shrunk(order, lo, hi, h, size, xs, k, r) ==> (r.None? <==> Find(xs, k).None?)
  {
  }
}
