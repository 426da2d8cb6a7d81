/** Well-formed B+ trees: the invariant, and how parts of a node may be cut out and replaced.

    Leaf keys lie in the half-open interval their separators allow; separators lie strictly above
    their lower bound, which is one step more than `audit` checks and is what borrowing and
    merging preserve. */
module BPlusInvariant {
  import opened Prelude
  import opened KeyOrder
  import opened SortedItems
  import opened BPlusTree

  type Bound = Option<Key>

  predicate From(lo: Bound, k: Key) {
    lo.Some? ==> lo.value <= k
  }

  predicate Above(lo: Bound, k: Key) {
    lo.Some? ==> lo.value < k
  }

  predicate Below(k: Key, hi: Bound) {
    hi.Some? ==> k < hi.value
  }

  predicate SortedKeys(keys: seq<Key>) {
    forall i, j :: 0 <= i < j < |keys| ==> keys[i] < keys[j]
  }

  predicate Separators(lo: Bound, hi: Bound, keys: seq<Key>) {
    SortedKeys(keys) && forall i :: 0 <= i < |keys| ==> Above(lo, keys[i]) && Below(keys[i], hi)
  }

  // The bounds of the child at position `i`.
  function Lower(lo: Bound, keys: seq<Key>, i: nat): Bound
    requires i <= |keys|
  {
    if i == 0 then lo else Some(keys[i - 1])
  }

  function Upper(keys: seq<Key>, hi: Bound, i: nat): Bound {
    if i < |keys| then Some(keys[i]) else hi
  }

  ghost predicate WF(order: nat, t: Tree, lo: Bound, hi: Bound, h: nat)
    decreases h, 0
  {
    match t
    case Leaf(_, keys, values) =>
      && h == 1
      && |keys| == |values|
      && SortedKeys(keys)
      && (forall i :: 0 <= i < |keys| ==> From(lo, keys[i]) && Below(keys[i], hi))
    case Internal(_, keys, children) =>
      h >= 2 && Kids(order, lo, hi, h - 1, keys, children)
  }

  ghost predicate Kids(order: nat, lo: Bound, hi: Bound, h: nat, keys: seq<Key>, children: seq<Tree>)
    decreases h, 2
  {
    && |children| == |keys| + 1
    && Separators(lo, hi, keys)
    && (forall i :: 0 <= i < |children| ==> Child(order, Lower(lo, keys, i), Upper(keys, hi, i), h, children[i]))
  }

  // A node that is not the root is at least half full.
  ghost predicate Child(order: nat, lo: Bound, hi: Bound, h: nat, c: Tree)
    decreases h, 1
  {
    order / 2 <= |c.keys| <= order && WF(order, c, lo, hi, h)
  }

  // ----- shape and contents -----

  lemma {:induction false} WFShaped(order: nat, t: Tree, lo: Bound, hi: Bound, h: nat)
    requires WF(order, t, lo, hi, h)
    ensures Shaped(t) && Height(t) == h
    decreases h, 0
  {
    if t.Internal? {
      KidsShaped(order, lo, hi, h - 1, t.keys, t.children);
    }
  }

  lemma {:induction false} KidsShaped(order: nat, lo: Bound, hi: Bound, h: nat, keys: seq<Key>, children: seq<Tree>)
    requires Kids(order, lo, hi, h, keys, children)
    ensures forall c :: c in children ==> Shaped(c) && Height(c) == h
    decreases h, 1
  {
    forall c | c in children ensures Shaped(c) && Height(c) == h {
      var i :| 0 <= i < |children| && children[i] == c;
      assert Child(order, Lower(lo, keys, i), Upper(keys, hi, i), h, children[i]);
      WFShaped(order, c, Lower(lo, keys, i), Upper(keys, hi, i), h);
    }
  }

  lemma {:induction false} FlatConcat(a: seq<Tree>, b: seq<Tree>)
    requires forall c :: c in a + b ==> Shaped(c)
    ensures forall c :: c in a ==> c in a + b
    ensures forall c :: c in b ==> c in a + b
    ensures Flat(a + b) == Flat(a) + Flat(b)
  {
    if a == [] {
      assert a + b == b;
    } else {
      assert (a + b)[1..] == a[1..] + b && (a + b)[0] == a[0];
      FlatConcat(a[1..], b);
    }
  }

  // ----- cutting a node apart and putting it together -----

  // The children from `i` up to `j` on their own.
  lemma {:induction false} KidsSlice(order: nat, lo: Bound, hi: Bound, h: nat, keys: seq<Key>, children: seq<Tree>,
                                     i: nat, j: nat)
    requires Kids(order, lo, hi, h, keys, children) && i < j <= |children|
    ensures Kids(order, Lower(lo, keys, i), Upper(keys, hi, j - 1), h, keys[i..j - 1], children[i..j])
  {
    hide Child;
    var ks, cs := keys[i..j - 1], children[i..j];
    var lo', hi' := Lower(lo, keys, i), Upper(keys, hi, j - 1);
    forall x | 0 <= x < |cs| ensures Child(order, Lower(lo', ks, x), Upper(ks, hi', x), h, cs[x]) {
      assert Child(order, Lower(lo, keys, i + x), Upper(keys, hi, i + x), h, children[i + x]);
    }
  }

  lemma {:induction false} SeparatorsReplace(lo: Bound, hi: Bound, keys: seq<Key>, i: nat, j: nat, ks: seq<Key>)
    requires Separators(lo, hi, keys) && i < j <= |keys| + 1
    requires Separators(Lower(lo, keys, i), Upper(keys, hi, j - 1), ks)
    ensures Separators(lo, hi, keys[..i] + ks + keys[j - 1..])
  {
    var r, n := keys[..i] + ks + keys[j - 1..], i + |ks|;
    forall x, y | 0 <= x < y < |r| ensures r[x] < r[y] {
      if x < i <= y {
        assert r[x] <= keys[i - 1] < r[y];
      } else if x < n <= y {
        assert r[x] < keys[j - 1] <= r[y];
      }
    }
    forall x | 0 <= x < |r| ensures Above(lo, r[x]) && Below(r[x], hi) {
      if i <= x < n {
        assert r[x] == ks[x - i];
      }
    }
  }

  // The children from `i` up to `j` replaced by others that fit the same interval.
  lemma {:induction false} KidsReplace(order: nat, lo: Bound, hi: Bound, h: nat, keys: seq<Key>, children: seq<Tree>,
                    i: nat, j: nat, ks: seq<Key>, cs: seq<Tree>)
    requires Kids(order, lo, hi, h, keys, children) && i < j <= |children|
    requires Kids(order, Lower(lo, keys, i), Upper(keys, hi, j - 1), h, ks, cs)
    ensures Kids(order, lo, hi, h, keys[..i] + ks + keys[j - 1..], children[..i] + cs + children[j..])
  {
    hide Child, Separators;
    SeparatorsReplace(lo, hi, keys, i, j, ks);
    var ks', cs' := keys[..i] + ks + keys[j - 1..], children[..i] + cs + children[j..];
    forall x | 0 <= x < |cs'| ensures Child(order, Lower(lo, ks', x), Upper(ks', hi, x), h, cs'[x]) {
      if x < i {
        assert Child(order, Lower(lo, keys, x), Upper(keys, hi, x), h, children[x]);
      } else if x < i + |cs| {
        assert Child(order, Lower(Lower(lo, keys, i), ks, x - i), Upper(ks, Upper(keys, hi, j - 1), x - i), h,
               cs[x - i]);
      } else {
        var y := x - i - |cs| + j;
        assert Child(order, Lower(lo, keys, y), Upper(keys, hi, y), h, children[y]);
      }
    }
  }

  // ----- the items of a well-formed tree are sorted and within bounds -----

  ghost predicate InBounds(xs: seq<Item>, lo: Bound, hi: Bound) {
    forall i :: 0 <= i < |xs| ==> From(lo, xs[i].key) && Below(xs[i].key, hi)
  }

  lemma {:induction false} ItemsSorted(order: nat, t: Tree, lo: Bound, hi: Bound, h: nat)
    requires WF(order, t, lo, hi, h)
    ensures Shaped(t) && Sorted(Items(t)) && InBounds(Items(t), lo, hi)
    decreases h, 0, 0
  {
    WFShaped(order, t, lo, hi, h);
    if t.Internal? {
      FlatSorted(order, lo, hi, h - 1, t.keys, t.children);
    }
  }

  lemma {:induction false} FlatSorted(order: nat, lo: Bound, hi: Bound, h: nat, keys: seq<Key>, children: seq<Tree>)
    requires Kids(order, lo, hi, h, keys, children)
    ensures forall c :: c in children ==> Shaped(c)
    ensures Sorted(Flat(children)) && InBounds(Flat(children), lo, hi)
    decreases h, 1, |children|
  {
    KidsShaped(order, lo, hi, h, keys, children);
    assert Child(order, Lower(lo, keys, 0), Upper(keys, hi, 0), h, children[0]);
    ItemsSorted(order, children[0], lo, Upper(keys, hi, 0), h);
    if |children| == 1 {
      assert Flat(children[1..]) == [];
    } else {
      KidsSlice(order, lo, hi, h, keys, children, 1, |children|);
      assert keys[1..|children| - 1] == keys[1..] && children[1..|children|] == children[1..];
      FlatSorted(order, Some(keys[0]), hi, h, keys[1..], children[1..]);
      SortedJoin(Items(children[0]), Flat(children[1..]), lo, keys[0], hi);
    }
  }

  lemma {:induction false} SortedJoin(a: seq<Item>, b: seq<Item>, lo: Bound, k: Key, hi: Bound)
    requires Sorted(a) && Sorted(b) && InBounds(a, lo, Some(k)) && InBounds(b, Some(k), hi)
    requires Above(lo, k) && Below(k, hi)
    ensures Sorted(a + b) && InBounds(a + b, lo, hi)
  {
  }

  // A node's items before one of its children lie below that child's lower bound, those from a
  // child on at or above it.
  lemma {:induction false} FlatBefore(order: nat, lo: Bound, hi: Bound, h: nat, keys: seq<Key>, children: seq<Tree>,
                                      i: nat)
    requires Kids(order, lo, hi, h, keys, children) && i < |children|
    ensures forall c :: c in children ==> Shaped(c)
    ensures i > 0 ==> AllBelow(Flat(children[..i]), keys[i - 1])
    ensures i > 0 ==> AllFrom(Flat(children[i..]), keys[i - 1])
    ensures i == 0 ==> Flat(children[..i]) == []
  {
    hide Child, Shaped, Separators;
    KidsShaped(order, lo, hi, h, keys, children);
    if i > 0 {
      FlatLeft(order, lo, hi, h, keys, children, i);
      FlatRight(order, lo, hi, h, keys, children, i);
    }
  }

  lemma {:induction false} FlatLeft(order: nat, lo: Bound, hi: Bound, h: nat, keys: seq<Key>, children: seq<Tree>,
                                    i: nat)
    requires Kids(order, lo, hi, h, keys, children) && 0 < i < |children| == |keys| + 1
    requires forall c :: c in children ==> Shaped(c)
    ensures AllBelow(Flat(children[..i]), keys[i - 1])
  {
    hide Kids, Shaped, Flat;
    KidsSlice(order, lo, hi, h, keys, children, 0, i);
    assert keys[0..i - 1] == keys[..i - 1] && children[0..i] == children[..i];
    FlatSorted(order, lo, Some(keys[i - 1]), h, keys[..i - 1], children[..i]);
  }

  lemma {:induction false} FlatRight(order: nat, lo: Bound, hi: Bound, h: nat, keys: seq<Key>, children: seq<Tree>,
                                     i: nat)
    requires Kids(order, lo, hi, h, keys, children) && 0 < i < |children| == |keys| + 1
    requires forall c :: c in children ==> Shaped(c)
    ensures AllFrom(Flat(children[i..]), keys[i - 1])
  {
    hide Kids, Shaped, Flat;
    KidsSlice(order, lo, hi, h, keys, children, i, |children|);
    assert children[i..|children|] == children[i..];
    FlatSorted(order, Some(keys[i - 1]), hi, h, keys[i..|children| - 1], children[i..]);
  }

  lemma {:induction false} FlatThree(children: seq<Tree>, i: nat, j: nat)
    requires i <= j <= |children| && forall c :: c in children ==> Shaped(c)
    ensures Flat(children) == Flat(children[..i]) + Flat(children[i..j]) + Flat(children[j..])
  {
    hide Shaped, Flat;
    assert children == children[..i] + children[i..j] + children[j..];
    FlatConcat(children[..i] + children[i..j], children[j..]);
    FlatConcat(children[..i], children[i..j]);
  }
}
