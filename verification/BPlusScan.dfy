/** The pruning range scan lists exactly the items in range, and height grows only with the
    logarithm of the number of keys. */
module BPlusScan {
  import opened Prelude
  import opened KeyOrder
  import opened SortedItems
  import opened BPlusTree
  import opened BPlusInvariant
  import opened BPlusTheorems

  // ----- range scans -----

  lemma {:induction false} RangeLeafIsSelect(xs: seq<Item>, start: Option<Key>, stop: Option<Key>)
    requires Sorted(xs)
    ensures RangeLeaf(xs, start, stop) == Select(xs, start, stop)
  {
    if xs != [] {
      RangeLeafIsSelect(xs[1..], start, stop);
      if stop.Some? && xs[0].key >= stop.value {
        SelectNone(xs, start, stop);
      }
    }
  }

  // Whatever the bounds, pruning loses nothing and admits nothing.
  lemma {:induction false} RangeIsSelect(order: nat, t: Tree, lo: Bound, hi: Bound, h: nat, start: Option<Key>,
                                         stop: Option<Key>)
    requires WF(order, t, lo, hi, h)
    ensures Shaped(t) && RangeItems(t, start, stop) == Select(Items(t), start, stop)
    decreases h, 0, 0
  {
    ItemsSorted(order, t, lo, hi, h);
    if t.Leaf? {
      RangeLeafIsSelect(Items(t), start, stop);
    } else {
      RangeKidsIsSelect(order, lo, hi, h - 1, None, t.keys, t.children, start, stop);
    }
  }

  lemma {:induction false} RangeKidsIsSelect(order: nat, lo: Bound, hi: Bound, h: nat, left: Bound, keys: seq<Key>,
                                             children: seq<Tree>,
                                             start: Option<Key>, stop: Option<Key>)
    requires Kids(order, lo, hi, h, keys, children) && (left.None? || left == lo)
    ensures |children| == |keys| + 1 && forall c :: c in children ==> Shaped(c)
    ensures RangeChildren(left, keys, children, start, stop) == Select(Flat(children), start, stop)
    decreases h, 1, |children|
  {
    hide Shaped, Child, Separators;
    KidsShaped(order, lo, hi, h, keys, children);
    FlatSorted(order, lo, hi, h, keys, children);
    if stop.Some? && left.Some? && left.value >= stop.value {
      SelectNone(Flat(children), start, stop);
    } else {
      FirstChild(order, lo, hi, h, keys, children, start, stop);
      if keys == [] {
        assert Flat(children[1..]) == [];
      } else {
        KidsSlice(order, lo, hi, h, keys, children, 1, |children|);
        assert keys[1..|children| - 1] == keys[1..] && children[1..|children|] == children[1..];
        RangeKidsIsSelect(order, Some(keys[0]), hi, h, Some(keys[0]), keys[1..], children[1..], start, stop);
      }
      SelectConcat(Items(children[0]), Flat(children[1..]), start, stop);
    }
  }

  lemma {:induction false} FirstChild(order: nat, lo: Bound, hi: Bound, h: nat, keys: seq<Key>, children: seq<Tree>,
                                      start: Option<Key>, stop: Option<Key>)
    requires Kids(order, lo, hi, h, keys, children)
    ensures |children| == |keys| + 1 && Shaped(children[0])
    ensures RangeItems(children[0], start, stop) == Select(Items(children[0]), start, stop)
    ensures start.Some? && keys != [] && keys[0] <= start.value ==> Select(Items(children[0]), start, stop) == []
    decreases h, 0, 1
  {
    assert Child(order, Lower(lo, keys, 0), Upper(keys, hi, 0), h, children[0]);
    hide Kids;
    RangeIsSelect(order, children[0], lo, Upper(keys, hi, 0), h, start, stop);
    ItemsSorted(order, children[0], lo, Upper(keys, hi, 0), h);
    if start.Some? && keys != [] && keys[0] <= start.value {
      SelectNone(Items(children[0]), start, stop);
    }
  }

  // A selection of a sorted list is sorted and holds precisely its items in range.
  lemma {:induction false} SelectMeaning(xs: seq<Item>, start: Option<Key>, stop: Option<Key>)
    requires Sorted(xs)
    ensures Sorted(Select(xs, start, stop))
    ensures forall x :: x in Select(xs, start, stop) <==> x in xs && Within(x.key, start, stop)
  {
    hide Within;
    if xs != [] {
      SelectMeaning(xs[1..], start, stop);
      assert forall x :: x in xs <==> x == xs[0] || x in xs[1..];
      var rest := Select(xs[1..], start, stop);
      forall i | 0 <= i < |rest| ensures xs[0].key < rest[i].key {
        assert rest[i] in xs[1..];
      }
    }
  }

  // Every reachable tree, any bounds: the scan is the in-order listing, filtered, in order.
  lemma {:induction false} ScanOfRun(order: nat, ops: seq<Op>, start: Option<Key>, stop: Option<Key>)
    requires order >= 3 && Run(order, ops).root.Some?
    ensures var t := Run(order, ops).root.value;
            && Shaped(t)
            && RangeItems(t, start, stop) == Select(Items(t), start, stop)
            && Sorted(RangeItems(t, start, stop))
            && (forall x :: x in RangeItems(t, start, stop) <==> x in Items(t) && Within(x.key, start, stop))
  {
    hide Run;
    var t := Run(order, ops).root.value;
    RangeIsSelect(order, t, None, None, Height(t), start, stop);
    ItemsSorted(order, t, None, None, Height(t));
    SelectMeaning(Items(t), start, stop);
  }

  // ----- height -----

  function Power(b: nat, n: nat): nat {
    if n == 0 then 1 else b * Power(b, n - 1)
  }

  // The keys a node of height `h` below the root holds at least, `m` being half the order.
  function FewestKeys(m: nat, h: nat): nat
    requires h >= 1
  {
    m * Power(m + 1, h - 1)
  }

  lemma {:induction false} ManyKeys(order: nat, t: Tree, lo: Bound, hi: Bound, h: nat, m: nat)
    requires WF(order, t, lo, hi, h) && |t.keys| >= m && m == order / 2
    ensures Shaped(t) && h >= 1 && |Items(t)| >= FewestKeys(m, h)
    decreases h, 0, 0
  {
    WFShaped(order, t, lo, hi, h);
    if t.Leaf? {
      assert FewestKeys(m, 1) == m;
    } else {
      hide FewestKeys;
      ManyKeysBelow(order, lo, hi, h - 1, t.keys, t.children, m);
      Times(|t.children|, m + 1, FewestKeys(m, h - 1));
      FewestKeysGrow(m, h);
    }
  }

  lemma FewestKeysGrow(m: nat, h: nat)
    requires h >= 2
    ensures FewestKeys(m, h) == (m + 1) * FewestKeys(m, h - 1)
  {
    Rotate(m + 1, m, Power(m + 1, h - 2));
  }

  lemma Times(a: nat, b: nat, p: nat)
    requires a >= b
    ensures a * p >= b * p
  {
  }

  lemma Rotate(a: nat, b: nat, c: nat)
    ensures a * (b * c) == b * (a * c)
  {
  }

  lemma OneMoreTime(n: nat, p: nat)
    requires n >= 1
    ensures n * p == p + (n - 1) * p
  {
  }

  lemma {:induction false} ManyKeysBelow(order: nat, lo: Bound, hi: Bound, h: nat, keys: seq<Key>,
                                         children: seq<Tree>, m: nat)
    requires Kids(order, lo, hi, h, keys, children) && m == order / 2 && h >= 1
    ensures forall c :: c in children ==> Shaped(c)
    ensures |Flat(children)| >= |children| * FewestKeys(m, h)
    decreases h, 1, |children|
  {
    hide FewestKeys, Separators, Shaped, Items;
    KidsShaped(order, lo, hi, h, keys, children);
    assert Child(order, Lower(lo, keys, 0), Upper(keys, hi, 0), h, children[0]);
    ManyKeys(order, children[0], lo, Upper(keys, hi, 0), h, m);
    OneMoreTime(|children|, FewestKeys(m, h));
    if |children| > 1 {
      KidsSlice(order, lo, hi, h, keys, children, 1, |children|);
      assert keys[1..|children| - 1] == keys[1..] && children[1..|children|] == children[1..];
      ManyKeysBelow(order, Some(keys[0]), hi, h, keys[1..], children[1..], m);
    }
  }

  // A tree of height h >= 2, however it came about, holds at least 2 m (m + 1)^(h - 2) keys,
  // where m = order / 2.
  lemma {:induction false} HeightIsLogarithmic(order: nat, ops: seq<Op>)
    requires order >= 3 && Run(order, ops).root.Some?
    ensures var t, m := Run(order, ops).root.value, order / 2;
            Height(t) >= 2 ==> |Model(ops)| >= 2 * (m * Power(m + 1, Height(t) - 2))
  {
    hide Run, Model;
    var s := Run(order, ops);
    if Height(s.root.value) >= 2 {
      RootHoldsMany(order, s.root.value);
      GoodRootItems(order, s.root);
      MapSize(RootItems(s.root));
    }
  }

  lemma {:induction false} RootHoldsMany(order: nat, t: Tree)
    requires GoodRoot(order, Some(t)) && Height(t) >= 2
    ensures Shaped(t) && |Items(t)| >= 2 * FewestKeys(order / 2, Height(t) - 1)
  {
    hide FewestKeys, Flat;
    var h, m := Height(t), order / 2;
    WFShaped(order, t, None, None, h);
    ManyKeysBelow(order, None, None, h - 1, t.keys, t.children, m);
    Times(|t.children|, 2, FewestKeys(m, h - 1));
  }
}
