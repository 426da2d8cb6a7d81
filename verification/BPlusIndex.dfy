/** The index object (`BPlusTree` in `imustore/bplus_tree.py`): a root and a separately kept key
    count, updated in place; lookups and `height` are loops. */
module BPlusIndex {
  import opened Prelude
  import opened Bytes
  import opened KeyOrder
  import opened SortedItems
  import opened BPlusTree
  import opened BPlusInvariant
  import opened BPlusInsert
  import opened BPlusTheorems

  // The number of nodes from the root to a leaf; the empty tree has none.
  function RootHeight(root: Option<Tree>): nat {
    if root.None? then 0 else Height(root.value)
  }

  class Index {
    const order: nat
    var root: Option<Tree>
    var count: int

    ghost predicate Valid()
      reads this
    {
      GoodRoot(order, root) && (root.Some? ==> Shaped(root.value)) && count == |ToMap(RootItems(root))|
    }

    ghost function Contents(): map<Key, bytes>
      requires Valid()
      reads this
    {
      ToMap(RootItems(root))
    }

    // The source refuses an order below 3.
    constructor (order: nat)
      requires order >= 3
      ensures Valid() && this.order == order && Contents() == map[] && count == 0
    {
      this.order, root, count := order, None, 0;
    }

    method Set(k: Key, v: bytes)
      requires Valid()
      modifies this
      ensures Valid() && Contents() == old(Contents())[k := v]
      ensures State(root, count) == Step(order, State(old(root), old(count)), SetOp(k, v))
    {
      ghost var s := State(root, count);
      StepRefines(order, s, Contents(), SetOp(k, v));
      var (t, added) := InsertRoot(order, root, k, ValueRef(0, v));
      root := Some(t);
      if added { count := count + 1; }
    }

    // False is the source's KeyError, raised exactly when the key is absent; then nothing changes.
    method Delete(k: Key) returns (ok: bool)
      requires Valid()
      modifies this
      ensures Valid() && Contents() == old(Contents()) - {k}
      ensures State(root, count) == Step(order, State(old(root), old(count)), DelOp(k))
      ensures ok <==> k in old(Contents())
      ensures !ok ==> root == old(root) && count == old(count)
    {
      ghost var s := State(root, count);
      StepRefines(order, s, Contents(), DelOp(k));
      DeleteRootOK(order, root, k);
      FindIsLookup(RootItems(root), k);
      GoodRootItems(order, root);
      var r := DeleteRoot(order, root, k);
      ok := r.Some?;
      if ok {
        root := r.value;
        count := count - 1;
      }
    }

    // None is KeyError.
    method Get(k: Key) returns (r: Option<bytes>)
      requires Valid()
      ensures r == if k in Contents() then Some(Contents()[k]) else None
    {
      ghost var all := RootItems(root);
      FindIsLookup(all, k);
      if root.None? {
        return None;
      }
      var node := root.value;
      ghost var lo: Bound, hi: Bound, h: nat := None, None, Height(node);
      while node.Internal?
        invariant WF(order, node, lo, hi, h) && From(lo, k) && Below(k, hi)
        invariant Shaped(node) && Find(Items(node), k) == Find(all, k)
        decreases h
      {
        var i := BisectRight(node.keys, k);
        Descend(order, node, lo, hi, h, k);
        lo, hi, h := Lower(lo, node.keys, i), Upper(node.keys, hi, i), h - 1;
        node := node.children[i];
      }
      LeafFind(node.keys, node.values, k);
      var i := BisectLeft(node.keys, k);
      if i < |node.keys| && node.keys[i] == k {
        r := Some(node.values[i].payload);
      } else {
        r := None;
      }
    }

    method CountHeight() returns (height: nat)
      requires Valid()
      ensures height == RootHeight(root)
    {
      height := 0;
      if root.Some? {
        var node := root.value;
        while node.Internal?
          invariant Shaped(node) && height + Height(node) == Height(root.value)
          decreases Height(node)
        {
          height := height + 1;
          assert node.children[0] in node.children;
          node := node.children[0];
        }
        height := height + 1;
      }
    }

    method Length() returns (n: int)
      requires Valid()
      ensures n == |Contents()|
    {
      n := count;
    }
  }

  // Following the separator leads to the only child that can hold the key.
  lemma {:induction false} Descend(order: nat, t: Tree, lo: Bound, hi: Bound, h: nat, k: Key)
    requires t.Internal? && WF(order, t, lo, hi, h) && From(lo, k) && Below(k, hi) && Shaped(t)
    ensures var i := BisectRight(t.keys, k);
            && i < |t.children| && h >= 1
            && WF(order, t.children[i], Lower(lo, t.keys, i), Upper(t.keys, hi, i), h - 1)
            && From(Lower(lo, t.keys, i), k) && Below(k, Upper(t.keys, hi, i))
            && Shaped(t.children[i]) && Find(Items(t.children[i]), k) == Find(Items(t), k)
  {
    hide Kids;
    var i := BisectRight(t.keys, k);
    ChildBounds(order, lo, hi, h - 1, t.keys, t.children, k);
    OnlyChild(order, lo, hi, h - 1, t.keys, t.children, k);
    FindMiddle(Flat(t.children[..i]), Items(t.children[i]), Flat(t.children[i + 1..]), k);
  }
}
