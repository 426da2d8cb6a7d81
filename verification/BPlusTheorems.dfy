/** Whole B+ trees: every operation, root split and root collapse included, refines a finite map and
    keeps the tree well formed and its count right. */
module BPlusTheorems {
  import opened Prelude
  import opened Bytes
  import opened KeyOrder
  import opened SortedItems
  import opened BPlusTree
  import opened BPlusInvariant
  import opened BPlusInsert
  import opened BPlusDelete

  // ----- roots -----

  // The root is the empty tree or a well-formed node with at least one key.
  ghost predicate GoodRoot(order: nat, root: Option<Tree>) {
    && order >= 3
    && (root.Some? ==> 1 <= |root.value.keys| <= order && WF(order, root.value, None, None, Height(root.value)))
  }

  function RootItems(root: Option<Tree>): seq<Item>
    requires root.Some? ==> Shaped(root.value)
  {
    if root.None? then [] else Items(root.value)
  }

  lemma {:induction false} GoodRootItems(order: nat, root: Option<Tree>)
    requires GoodRoot(order, root)
    ensures root.Some? ==> Shaped(root.value) && Separated(root.value)
    ensures Sorted(RootItems(root))
  {
    if root.Some? {
      ItemsSorted(order, root.value, None, None, Height(root.value));
      WFSeparated(order, root.value, None, None, Height(root.value));
    }
  }

  // Insertion is `Put` on the items, and reports whether the key is new.
  lemma {:induction false} InsertRootOK(order: nat, root: Option<Tree>, k: Key, v: ValueRef)
    requires GoodRoot(order, root)
    ensures root.Some? ==> Shaped(root.value)
    ensures var (t, added) := InsertRoot(order, root, k, v);
            && GoodRoot(order, Some(t)) && Shaped(t)
            && Items(t) == Put(RootItems(root), k, v.payload)
            && (added <==> Find(RootItems(root), k).None?)
  {
    GoodRootItems(order, root);
    if root.None? {
      assert WF(order, NewLeaf([k], [v]), None, None, 1);
    } else {
      var h := Height(root.value);
      InsertRecOK(order, root.value, None, None, h, k, v);
      var r := InsertRec(order, root.value, k, v);
      if r.split.None? {
        WFShaped(order, r.node, None, None, h);
      } else {
        SplitRootOK(order, r.node, r.split.value.0, r.split.value.1, h);
      }
    }
  }

  lemma {:induction false} SplitRootOK(order: nat, a: Tree, s: Key, b: Tree, h: nat)
    requires order >= 3 && Child(order, None, Some(s), h, a) && Child(order, Some(s), None, h, b)
    ensures Shaped(a) && Shaped(b)
    ensures var t := NewInternal([s], [a, b]);
            GoodRoot(order, Some(t)) && Shaped(t) && Items(t) == Items(a) + Items(b)
  {
    var t := NewInternal([s], [a, b]);
    WFShaped(order, a, None, Some(s), h);
    WFShaped(order, b, Some(s), None, h);
    NeighboursKids(order, None, None, h, a, s, b);
    InternalWF(order, None, None, h, [s], [a, b]);
    WFShaped(order, t, None, None, h + 1);
    FlatTwo(a, b);
  }

  // Deletion fails exactly on absent keys, and otherwise is `Remove` on the items.
  lemma {:induction false} DeleteRootOK(order: nat, root: Option<Tree>, k: Key)
    requires GoodRoot(order, root)
    ensures root.Some? ==> Shaped(root.value) && Separated(root.value)
    ensures var r := DeleteRoot(order, root, k);
            && (r.None? <==> Find(RootItems(root), k).None?)
            && (r.Some? ==>
                  && GoodRoot(order, r.value)
                  && (r.value.Some? ==> Shaped(r.value.value))
                  && RootItems(r.value) == Remove(RootItems(root), k))
  {
    GoodRootItems(order, root);
    if root.Some? {
      var h := Height(root.value);
      DeleteRecOK(order, root.value, None, None, h, k);
      var r := DeleteRec(order, root.value, k);
      if r.Some? {
        WFShaped(order, r.value, None, None, h);
        if r.value.Internal? && |r.value.keys| == 0 {
          CollapseOK(order, r.value, h);
        }
      }
    }
  }

  // A root left with no separator has one child, which takes its place.
  lemma {:induction false} CollapseOK(order: nat, t: Tree, h: nat)
    requires order >= 3 && t.Internal? && |t.keys| == 0 && WF(order, t, None, None, h)
    ensures Shaped(t) && |t.children| == 1 && Shaped(t.children[0])
    ensures GoodRoot(order, Some(t.children[0])) && Items(t) == Items(t.children[0])
  {
    WFShaped(order, t, None, None, h);
    var c := t.children[0];
    assert Child(order, Lower(None, t.keys, 0), Upper(t.keys, None, 0), h - 1, t.children[0]);
    WFShaped(order, c, None, None, h - 1);
    FlatOne(c);
    assert t.children == [c];
  }

  // ----- runs of operations -----

  datatype Op = SetOp(key: Key, value: bytes) | DelOp(key: Key)

  datatype State = State(root: Option<Tree>, count: int)

  // One `set` or `delete`; a deletion that fails changes nothing.
  ghost function Step(order: nat, s: State, op: Op): State
    requires GoodRoot(order, s.root)
  {
    GoodRootItems(order, s.root);
    match op
    case SetOp(k, v) =>
      var (t, added) := InsertRoot(order, s.root, k, ValueRef(0, v));
      State(Some(t), s.count + if added then 1 else 0)
    case DelOp(k) =>
      var r := DeleteRoot(order, s.root, k);
      if r.None? then s else State(r.value, s.count - 1)
  }

  function Effect(m: map<Key, bytes>, op: Op): map<Key, bytes> {
    match op
    case SetOp(k, v) => m[k := v]
    case DelOp(k) => m - {k}
  }

  // The tree, its separately kept count and a plain map tell the same story.
  ghost predicate Refines(order: nat, s: State, m: map<Key, bytes>) {
    && GoodRoot(order, s.root)
    && (s.root.Some? ==> Shaped(s.root.value))
    && ToMap(RootItems(s.root)) == m
    && s.count == |m|
  }

  lemma {:induction false} StepRefines(order: nat, s: State, m: map<Key, bytes>, op: Op)
    requires Refines(order, s, m)
    ensures Refines(order, Step(order, s, op), Effect(m, op))
  {
    var xs := RootItems(s.root);
    GoodRootItems(order, s.root);
    MapSize(xs);
    match op {
      case SetOp(k, v) =>
        InsertRootOK(order, s.root, k, ValueRef(0, v));
        PutIsUpdate(xs, k, v);
        MapSize(Put(xs, k, v));
      case DelOp(k) =>
        DeleteRootOK(order, s.root, k);
        RemoveIsDeletion(xs, k);
        MapSize(Remove(xs, k));
        FindIsLookup(xs, k);
    }
  }

  lemma {:induction false} StepGood(order: nat, s: State, op: Op)
    requires GoodRoot(order, s.root)
    ensures GoodRoot(order, Step(order, s, op).root)
  {
    match op {
      case SetOp(k, v) => InsertRootOK(order, s.root, k, ValueRef(0, v));
      case DelOp(k) => DeleteRootOK(order, s.root, k);
    }
  }

  // Several operations, from any good tree.
  ghost function Steps(order: nat, s: State, ops: seq<Op>): (t: State)
    requires GoodRoot(order, s.root)
    ensures GoodRoot(order, t.root)
  {
    if ops == [] then s
    else
      var t := Steps(order, s, ops[..|ops| - 1]);
      StepGood(order, t, ops[|ops| - 1]);
      Step(order, t, ops[|ops| - 1])
  }

  ghost function Run(order: nat, ops: seq<Op>): (s: State)
    requires order >= 3
    ensures Refines(order, s, Model(ops))
  {
    if ops == [] then State(None, 0)
    else
      var s := Run(order, ops[..|ops| - 1]);
      StepRefines(order, s, Model(ops[..|ops| - 1]), ops[|ops| - 1]);
      Step(order, s, ops[|ops| - 1])
  }

  function Model(ops: seq<Op>): map<Key, bytes> {
    if ops == [] then map[] else Effect(Model(ops[..|ops| - 1]), ops[|ops| - 1])
  }
}
