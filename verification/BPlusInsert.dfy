/** Inserting into a B+ tree keeps it well formed and is insertion into the sorted list of items. */
module BPlusInsert {
  import opened Prelude
  import opened KeyOrder
  import opened SortedItems
  import opened BPlusTree
  import opened BPlusInvariant

  // `r` stands, in the place of a node of `size` keys, for the items `xs`.
  ghost predicate Grown(order: nat, lo: Bound, hi: Bound, h: nat, size: nat, r: Inserted, xs: seq<Item>) {
    && Shaped(r.node)
    && match r.split
       case None =>
         && WF(order, r.node, lo, hi, h)
         && size <= |r.node.keys| <= order
         && Items(r.node) == xs
       case Some((sep, right)) =>
         && Shaped(right)
         && Above(lo, sep) && Below(sep, hi)
         && Child(order, lo, Some(sep), h, r.node)
         && Child(order, Some(sep), hi, h, right)
         && Items(r.node) + Items(right) == xs
  }

  // ----- leaves -----

  lemma {:induction false} LeafOverwrite(keys: seq<Key>, values: seq<ValueRef>, i: nat, k: Key, v: ValueRef)
    requires |keys| == |values| && SortedKeys(keys) && i < |keys| && keys[i] == k
    ensures LeafItems(keys, values[i := v]) == Put(LeafItems(keys, values), k, v.payload)
  {
    var xs := LeafItems(keys, values);
    assert xs == xs[..i] + xs[i..];
    PutAfter(xs[..i], xs[i..], k, v.payload);
    assert LeafItems(keys, values[i := v]) == xs[..i] + ([Item(k, v.payload)] + xs[i..][1..]);
  }

  lemma {:induction false} LeafSpliced(keys: seq<Key>, values: seq<ValueRef>, i: nat, k: Key, v: ValueRef)
    requires |keys| == |values| && i <= |keys|
    ensures var xs := LeafItems(keys, values);
            LeafItems(keys[..i] + [k] + keys[i..], values[..i] + [v] + values[i..])
            == xs[..i] + ([Item(k, v.payload)] + xs[i..])
  {
    var xs := LeafItems(keys, values);
    var ks, vs := keys[..i] + [k] + keys[i..], values[..i] + [v] + values[i..];
    var y, z := LeafItems(ks, vs), xs[..i] + ([Item(k, v.payload)] + xs[i..]);
    forall j | 0 <= j < |y| ensures y[j] == z[j] {
      if j > i {
        assert ks[j] == keys[j - 1] && vs[j] == values[j - 1];
      }
    }
  }

  lemma {:induction false} LeafInsert(keys: seq<Key>, values: seq<ValueRef>, i: nat, k: Key, v: ValueRef)
    requires |keys| == |values| && i <= |keys|
    requires (forall j :: 0 <= j < i ==> keys[j] < k) && (i < |keys| ==> k < keys[i])
    ensures LeafItems(keys[..i] + [k] + keys[i..], values[..i] + [v] + values[i..])
         == Put(LeafItems(keys, values), k, v.payload)
  {
    LeafSpliced(keys, values, i, k, v);
    var xs := LeafItems(keys, values);
    assert xs == xs[..i] + xs[i..];
    PutAfter(xs[..i], xs[i..], k, v.payload);
  }

  lemma {:induction false} KeysInsert(lo: Bound, hi: Bound, keys: seq<Key>, i: nat, k: Key)
    requires SortedKeys(keys) && i <= |keys| && From(lo, k) && Below(k, hi)
    requires (forall j :: 0 <= j < i ==> keys[j] < k) && (i < |keys| ==> k < keys[i])
    requires forall j :: 0 <= j < |keys| ==> From(lo, keys[j]) && Below(keys[j], hi)
    ensures var r := keys[..i] + [k] + keys[i..];
            SortedKeys(r) && forall j :: 0 <= j < |r| ==> From(lo, r[j]) && Below(r[j], hi)
  {
    var r := keys[..i] + [k] + keys[i..];
    assert forall j :: i < j < |r| ==> r[j] == keys[j - 1];
  }

  lemma {:induction false} SplitLeafOK(order: nat, lo: Bound, hi: Bound, size: nat, keys: seq<Key>,
                                       values: seq<ValueRef>, added: bool)
    requires order >= 3 && |keys| == |values| && size <= |keys| <= order + 1
    requires WF(order, NewLeaf(keys, values), lo, hi, 1)
    ensures Grown(order, lo, hi, 1, size, SplitLeaf(order, keys, values, added), LeafItems(keys, values))
  {
    if |keys| > order {
      var mid := |keys| / 2;
      assert LeafItems(keys, values) == LeafItems(keys[..mid], values[..mid]) + LeafItems(keys[mid..], values[mid..]);
      assert Above(lo, keys[mid]) by { assert From(lo, keys[0]) && keys[0] < keys[mid]; }
      assert WF(order, NewLeaf(keys[..mid], values[..mid]), lo, Some(keys[mid]), 1);
      assert WF(order, NewLeaf(keys[mid..], values[mid..]), Some(keys[mid]), hi, 1);
    }
  }

  lemma {:induction false} InsertLeafOK(order: nat, t: Tree, lo: Bound, hi: Bound, k: Key, v: ValueRef)
    requires order >= 3 && t.Leaf? && WF(order, t, lo, hi, 1) && |t.keys| <= order
    requires From(lo, k) && Below(k, hi)
    ensures Grown(order, lo, hi, 1, |t.keys|, InsertRec(order, t, k, v), Put(Items(t), k, v.payload))
    ensures InsertRec(order, t, k, v).added <==> Find(Items(t), k).None?
  {
    hide Grown, SplitLeaf, LeafItems, Put, Find, BisectLeft;
    var i := BisectLeft(t.keys, k);
    LeafFind(t.keys, t.values, k);
    if i < |t.keys| && t.keys[i] == k {
      LeafOverwrite(t.keys, t.values, i, k, v);
      SplitLeafOK(order, lo, hi, |t.keys|, t.keys, t.values[i := v], false);
    } else {
      LeafInsert(t.keys, t.values, i, k, v);
      KeysInsert(lo, hi, t.keys, i, k);
      var ks, vs := t.keys[..i] + [k] + t.keys[i..], t.values[..i] + [v] + t.values[i..];
      SplitLeafOK(order, lo, hi, |t.keys|, ks, vs, true);
    }
  }

  // Searching a leaf by bisection finds what the list holds.
  lemma {:induction false} LeafFind(keys: seq<Key>, values: seq<ValueRef>, k: Key)
    requires |keys| == |values| && SortedKeys(keys)
    ensures var i := BisectLeft(keys, k);
            Find(LeafItems(keys, values), k) == if i < |keys| && keys[i] == k then Some(values[i].payload) else None
  {
    var xs, i := LeafItems(keys, values), BisectLeft(keys, k);
    if i < |keys| && keys[i] == k {
      assert xs == xs[..i] + [xs[i]] + xs[i + 1..];
      FindMiddle(xs[..i], [xs[i]], xs[i + 1..], k);
    } else {
      assert xs == xs[..i] + [] + xs[i..];
      FindMiddle(xs[..i], [], xs[i..], k);
    }
  }

  // ----- internal nodes -----

  lemma {:induction false} SplitInternalOK(order: nat, lo: Bound, hi: Bound, h: nat, size: nat, keys: seq<Key>,
                                           children: seq<Tree>, added: bool)
    requires order >= 3 && h >= 2 && size <= |keys| <= order + 1
    requires Kids(order, lo, hi, h - 1, keys, children)
    ensures forall c :: c in children ==> Shaped(c)
    ensures Grown(order, lo, hi, h, size, SplitInternal(order, keys, children, added), Flat(children))
  {
    hide Child, Shaped, Flat;
    KidsShaped(order, lo, hi, h - 1, keys, children);
    if |keys| <= order {
      WFShaped(order, NewInternal(keys, children), lo, hi, h);
    } else {
      SplitHalves(order, lo, hi, h, keys, children);
    }
  }

  lemma {:induction false} SplitHalves(order: nat, lo: Bound, hi: Bound, h: nat, keys: seq<Key>, children: seq<Tree>)
    requires order >= 3 && h >= 2 && |keys| == order + 1
    requires Kids(order, lo, hi, h - 1, keys, children) && forall c :: c in children ==> Shaped(c)
    ensures |children| == |keys| + 1
    ensures var mid := |keys| / 2;
            Halves(order, lo, hi, h, NewInternal(keys[..mid], children[..mid + 1]), keys[mid],
                   NewInternal(keys[mid + 1..], children[mid + 1..]), Flat(children))
  {
    hide Child, Shaped, Flat, Kids;
    var mid := |keys| / 2;
    SplitKids(order, lo, hi, h - 1, keys, children, mid);
    HalvesFit(order, lo, hi, h, keys, children);
    ChildShaped(order, lo, Some(keys[mid]), h, NewInternal(keys[..mid], children[..mid + 1]));
    ChildShaped(order, Some(keys[mid]), hi, h, NewInternal(keys[mid + 1..], children[mid + 1..]));
    assert children == children[..mid + 1] + children[mid + 1..];
    FlatConcat(children[..mid + 1], children[mid + 1..]);
  }

  // Two nodes and the separator between them, holding `xs`.
  ghost predicate Halves(order: nat, lo: Bound, hi: Bound, h: nat, a: Tree, sep: Key, b: Tree, xs: seq<Item>) {
    && Shaped(a) && Shaped(b) && Items(a) + Items(b) == xs
    && Above(lo, sep) && Below(sep, hi)
    && Child(order, lo, Some(sep), h, a) && Child(order, Some(sep), hi, h, b)
  }

  lemma {:induction false} ChildShaped(order: nat, lo: Bound, hi: Bound, h: nat, c: Tree)
    requires Child(order, lo, hi, h, c)
    ensures Shaped(c)
  {
    WFShaped(order, c, lo, hi, h);
  }

  lemma {:induction false} HalvesFit(order: nat, lo: Bound, hi: Bound, h: nat, keys: seq<Key>, children: seq<Tree>)
    requires order >= 3 && h >= 2 && |keys| == order + 1 && |children| == |keys| + 1
    requires var mid := |keys| / 2;
      && Kids(order, lo, Some(keys[mid]), h - 1, keys[..mid], children[..mid + 1])
      && Kids(order, Some(keys[mid]), hi, h - 1, keys[mid + 1..], children[mid + 1..])
    ensures var mid := |keys| / 2;
      && Child(order, lo, Some(keys[mid]), h, NewInternal(keys[..mid], children[..mid + 1]))
      && Child(order, Some(keys[mid]), hi, h, NewInternal(keys[mid + 1..], children[mid + 1..]))
  {
    hide Kids;
  }

  lemma {:induction false} SplitKids(order: nat, lo: Bound, hi: Bound, h: nat, keys: seq<Key>, children: seq<Tree>,
                                     mid: nat)
    requires Kids(order, lo, hi, h, keys, children) && mid < |keys|
    ensures |children| == |keys| + 1
    ensures Above(lo, keys[mid]) && Below(keys[mid], hi)
    ensures Kids(order, lo, Some(keys[mid]), h, keys[..mid], children[..mid + 1])
    ensures Kids(order, Some(keys[mid]), hi, h, keys[mid + 1..], children[mid + 1..])
  {
    hide Child;
    KidsSlice(order, lo, hi, h, keys, children, 0, mid + 1);
    KidsSlice(order, lo, hi, h, keys, children, mid + 1, |children|);
    assert keys[0..mid] == keys[..mid] && children[0..mid + 1] == children[..mid + 1];
    assert keys[mid + 1..|children| - 1] == keys[mid + 1..] && children[mid + 1..|children|] == children[mid + 1..];
  }

  // What stands in for a child, as a run of children.
  function StandInKeys(r: Inserted): seq<Key> {
    if r.split.None? then [] else [r.split.value.0]
  }

  function StandIns(r: Inserted): seq<Tree> {
    if r.split.None? then [r.node] else [r.node, r.split.value.1]
  }

  lemma {:induction false} StandInKids(order: nat, lo: Bound, hi: Bound, h: nat, size: nat, r: Inserted, xs: seq<Item>)
    requires Grown(order, lo, hi, h, size, r, xs) && order / 2 <= size
    ensures Kids(order, lo, hi, h, StandInKeys(r), StandIns(r))
    ensures forall c :: c in StandIns(r) ==> Shaped(c)
    ensures Flat(StandIns(r)) == xs
  {
    hide WF;
    assert Flat([]) == [];
    if r.split.None? {
      assert StandIns(r)[1..] == [];
    } else {
      assert StandIns(r)[1..] == [r.split.value.1] && StandIns(r)[1..][1..] == [];
    }
  }

  lemma {:induction false} FlatMiddle(children: seq<Tree>, i: nat)
    requires i < |children| && forall c :: c in children ==> Shaped(c)
    ensures Flat(children) == Flat(children[..i]) + Items(children[i]) + Flat(children[i + 1..])
  {
    hide Shaped;
    FlatThree(children, i, i + 1);
    assert children[i..i + 1] == [children[i]];
    assert [children[i]][1..] == [] && Flat([]) == [];
  }

  // The parts of a node's items that an update of child `i` at key `k` cannot touch.
  lemma {:induction false} OnlyChild(order: nat, lo: Bound, hi: Bound, h: nat, keys: seq<Key>, children: seq<Tree>,
                                     k: Key)
    requires Kids(order, lo, hi, h, keys, children)
    ensures forall c :: c in children ==> Shaped(c)
    ensures var i := BisectRight(keys, k);
            && i < |children|
            && Flat(children) == Flat(children[..i]) + Items(children[i]) + Flat(children[i + 1..])
            && AllBelow(Flat(children[..i]), k) && AllAbove(Flat(children[i + 1..]), k)
  {
    hide Shaped, Child, Separators;
    KidsShaped(order, lo, hi, h, keys, children);
    var i := BisectRight(keys, k);
    FlatMiddle(children, i);
    FlatBefore(order, lo, hi, h, keys, children, i);
    if i + 1 < |children| {
      FlatBefore(order, lo, hi, h, keys, children, i + 1);
    }
  }

  lemma {:induction false} ChildBounds(order: nat, lo: Bound, hi: Bound, h: nat, keys: seq<Key>, children: seq<Tree>,
                                       k: Key)
    requires Kids(order, lo, hi, h, keys, children) && From(lo, k) && Below(k, hi)
    ensures var i := BisectRight(keys, k);
            && i < |children|
            && Child(order, Lower(lo, keys, i), Upper(keys, hi, i), h, children[i])
            && From(Lower(lo, keys, i), k) && Below(k, Upper(keys, hi, i))
  {
    hide Child;
    var i := BisectRight(keys, k);
    assert Child(order, Lower(lo, keys, i), Upper(keys, hi, i), h, children[i]);
  }

  lemma {:induction false} InsertRecOK(order: nat, t: Tree, lo: Bound, hi: Bound, h: nat, k: Key, v: ValueRef)
    requires order >= 3 && WF(order, t, lo, hi, h) && |t.keys| <= order
    requires From(lo, k) && Below(k, hi)
    ensures Shaped(t)
    ensures Grown(order, lo, hi, h, |t.keys|, InsertRec(order, t, k, v), Put(Items(t), k, v.payload))
    ensures InsertRec(order, t, k, v).added <==> Find(Items(t), k).None?
    decreases h
  {
    hide Kids, Grown, SplitInternal, SplitLeaf, Put, Find, BisectLeft, BisectRight, LeafItems, Flat, Shaped;
    WFShaped(order, t, lo, hi, h);
    if t.Leaf? {
      InsertLeafOK(order, t, lo, hi, k, v);
    } else {
      var i := BisectRight(t.keys, k);
      ChildBounds(order, lo, hi, h - 1, t.keys, t.children, k);
      InsertRecOK(order, t.children[i], Lower(lo, t.keys, i), Upper(t.keys, hi, i), h - 1, k, v);
      var r := InsertRec(order, t.children[i], k, v);
      InsertInternalOK(order, lo, hi, h, t.keys, t.children, i, k, v, r);
      if r.split.None? {
        assert t.keys[..i] + [] + t.keys[i..] == t.keys;
        assert t.children[..i] + [r.node] + t.children[i + 1..] == t.children[i := r.node];
      }
    }
  }

  lemma {:induction false} InsertInternalOK(order: nat, lo: Bound, hi: Bound, h: nat, keys: seq<Key>,
                                            children: seq<Tree>,
                         i: nat, k: Key, v: ValueRef, r: Inserted)
    requires order >= 3 && h >= 2 && Kids(order, lo, hi, h - 1, keys, children) && |keys| <= order
    requires i == BisectRight(keys, k) && i < |children| && Shaped(children[i]) && order / 2 <= |children[i].keys|
    requires Grown(order, Lower(lo, keys, i), Upper(keys, hi, i), h - 1, |children[i].keys|, r,
                   Put(Items(children[i]), k, v.payload))
    requires r.added <==> Find(Items(children[i]), k).None?
    ensures forall c :: c in children ==> Shaped(c)
    ensures |children| == |keys| + 1 && (r.added <==> Find(Flat(children), k).None?)
    ensures Grown(order, lo, hi, h, |keys|,
                  SplitInternal(order, keys[..i] + StandInKeys(r) + keys[i..],
                                children[..i] + StandIns(r) + children[i + 1..], r.added),
                  Put(Flat(children), k, v.payload))
  {
    hide Grown, Child, SplitInternal;
    OnlyChild(order, lo, hi, h - 1, keys, children, k);
    FindMiddle(Flat(children[..i]), Items(children[i]), Flat(children[i + 1..]), k);
    PutMiddle(Flat(children[..i]), Items(children[i]), Flat(children[i + 1..]), k, v.payload);
    StandInKids(order, Lower(lo, keys, i), Upper(keys, hi, i), h - 1, |children[i].keys|, r,
                Put(Items(children[i]), k, v.payload));
    KidsReplace(order, lo, hi, h - 1, keys, children, i, i + 1, StandInKeys(r), StandIns(r));
    var cs := children[..i] + StandIns(r) + children[i + 1..];
    SplitInternalOK(order, lo, hi, h, |keys|, keys[..i] + StandInKeys(r) + keys[i..], cs, r.added);
    FlatConcat(children[..i] + StandIns(r), children[i + 1..]);
    FlatConcat(children[..i], StandIns(r));
  }
}
