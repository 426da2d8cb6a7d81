/** The copy-on-write B+ tree (`imustore/bplus_tree.py`): nodes and the recursive operations.

    A node is an immutable value. Its address is where it is stored, 0 while it is not, so a node
    an update rebuilds has address 0 and a node it shares keeps its own. Lists the source edits in
    place while rebuilding one node are local to the call and appear here as sequences. */
module BPlusTree {
  import opened Prelude
  import opened Bytes
  import opened KeyOrder
  import opened SortedItems

  datatype ValueRef = ValueRef(addr: nat, payload: bytes)

  datatype Tree =
    | Leaf(addr: nat, keys: seq<Key>, values: seq<ValueRef>)
    | Internal(addr: nat, keys: seq<Key>, children: seq<Tree>)

  // The number of nodes on the leftmost path.
  function Height(t: Tree): (h: nat)
    ensures h >= 1
    ensures h == 1 && t.Internal? ==> t.children == []
  {
    if t.Leaf? || t.children == [] then 1 else 1 + Height(t.children[0])
  }

  // What the operations need of a node to run at all: aligned lists, children of one height.
  predicate Shaped(t: Tree) {
    match t
    case Leaf(_, keys, values) => |keys| == |values|
    case Internal(_, keys, children) =>
      |children| == |keys| + 1 && forall c :: c in children ==> Shaped(c) && Height(c) == Height(t) - 1
  }

  // ----- searching a node -----

  // The number of leading keys below `k` (`bisect_left` on sorted keys).
  function BisectLeft(keys: seq<Key>, k: Key): (i: nat)
    ensures i <= |keys|
    ensures forall j :: 0 <= j < i ==> keys[j] < k
    ensures i < |keys| ==> k <= keys[i]
  {
    if keys == [] || k <= keys[0] then 0
    else
      var i := BisectLeft(keys[1..], k);
      assert forall j :: 0 < j < i + 1 ==> keys[j] == keys[1..][j - 1];
      i + 1
  }

  // The number of leading keys at most `k` (`bisect_right` on sorted keys).
  function BisectRight(keys: seq<Key>, k: Key): (i: nat)
    ensures i <= |keys|
    ensures forall j :: 0 <= j < i ==> keys[j] <= k
    ensures i < |keys| ==> k < keys[i]
  {
    if keys == [] || k < keys[0] then 0
    else
      var i := BisectRight(keys[1..], k);
      assert forall j :: 0 < j < i + 1 ==> keys[j] == keys[1..][j - 1];
      i + 1
  }

  // ----- listing -----

  function LeafItems(keys: seq<Key>, values: seq<ValueRef>): (xs: seq<Item>)
    requires |keys| == |values|
    ensures |xs| == |keys|
    ensures forall i :: 0 <= i < |xs| ==> xs[i] == Item(keys[i], values[i].payload)
  {
    seq(|keys|, i requires 0 <= i < |keys| => Item(keys[i], values[i].payload))
  }

  function Items(t: Tree): seq<Item>
    requires Shaped(t)
    decreases t, 0
  {
    match t
    case Leaf(_, keys, values) => LeafItems(keys, values)
    case Internal(_, _, children) => Flat(children)
  }

  function Flat(children: seq<Tree>): seq<Item>
    requires forall c :: c in children ==> Shaped(c)
    decreases children, 1
  {
    if children == [] then [] else Items(children[0]) + Flat(children[1..])
  }

  // The pruning range scan: skip a child that ends at or before `start`, stop at one that begins
  // at or after `stop`.
  function RangeItems(t: Tree, start: Option<Key>, stop: Option<Key>): seq<Item>
    requires Shaped(t)
    decreases t, 0
  {
    match t
    case Leaf(_, keys, values) => RangeLeaf(LeafItems(keys, values), start, stop)
    case Internal(_, keys, children) => RangeChildren(None, keys, children, start, stop)
  }

  function RangeLeaf(xs: seq<Item>, start: Option<Key>, stop: Option<Key>): seq<Item> {
    if xs == [] then []
    else if start.Some? && xs[0].key < start.value then RangeLeaf(xs[1..], start, stop)
    else if stop.Some? && xs[0].key >= stop.value then []
    else [xs[0]] + RangeLeaf(xs[1..], start, stop)
  }

  // `left` is the separator before the first child, `keys` those after each child but the last.
  function RangeChildren(left: Option<Key>, keys: seq<Key>, children: seq<Tree>,
                         start: Option<Key>, stop: Option<Key>): seq<Item>
    requires |children| == |keys| + 1 && forall c :: c in children ==> Shaped(c)
    decreases children, 1
  {
    var right := if keys == [] then None else Some(keys[0]);
    if stop.Some? && left.Some? && left.value >= stop.value then []
    else
      var here := if start.Some? && right.Some? && right.value <= start.value then []
                  else RangeItems(children[0], start, stop);
      here + if keys == [] then [] else RangeChildren(right, keys[1..], children[1..], start, stop)
  }

  // ----- insert -----

  function NewLeaf(keys: seq<Key>, values: seq<ValueRef>): Tree {
    Leaf(0, keys, values)
  }

  function NewInternal(keys: seq<Key>, children: seq<Tree>): Tree {
    Internal(0, keys, children)
  }

  // The rebuilt node, and the separator and right half if it had to split.
  datatype Inserted = Inserted(node: Tree, split: Option<(Key, Tree)>, added: bool)

  function SplitLeaf(order: nat, keys: seq<Key>, values: seq<ValueRef>, added: bool): (r: Inserted)
    requires |keys| == |values|
    ensures r.added == added
  {
    if |keys| <= order then Inserted(NewLeaf(keys, values), None, added)
    else
      var mid := |keys| / 2;
      Inserted(NewLeaf(keys[..mid], values[..mid]), Some((keys[mid], NewLeaf(keys[mid..], values[mid..]))), added)
  }

  function SplitInternal(order: nat, keys: seq<Key>, children: seq<Tree>, added: bool): (r: Inserted)
    requires |children| == |keys| + 1
    ensures r.added == added
  {
    if |keys| <= order then Inserted(NewInternal(keys, children), None, added)
    else
      var mid := |keys| / 2;
      Inserted(NewInternal(keys[..mid], children[..mid + 1]),
               Some((keys[mid], NewInternal(keys[mid + 1..], children[mid + 1..]))), added)
  }

  function InsertRec(order: nat, t: Tree, k: Key, v: ValueRef): Inserted
    requires Shaped(t)
    decreases t
  {
    match t
    case Leaf(_, keys, values) =>
      var i := BisectLeft(keys, k);
      if i < |keys| && keys[i] == k then SplitLeaf(order, keys, values[i := v], false)
      else SplitLeaf(order, keys[..i] + [k] + keys[i..], values[..i] + [v] + values[i..], true)
    case Internal(_, keys, children) =>
      var i := BisectRight(keys, k);
      var r := InsertRec(order, children[i], k, v);
      if r.split.None? then SplitInternal(order, keys, children[i := r.node], r.added)
      else
        SplitInternal(order, keys[..i] + [r.split.value.0] + keys[i..],
                      children[..i] + [r.node, r.split.value.1] + children[i + 1..], r.added)
  }

  function InsertRoot(order: nat, root: Option<Tree>, k: Key, v: ValueRef): (Tree, bool)
    requires root.Some? ==> Shaped(root.value)
  {
    if root.None? then (NewLeaf([k], [v]), true)
    else
      var r := InsertRec(order, root.value, k, v);
      if r.split.None? then (r.node, r.added)
      else (NewInternal([r.split.value.0], [r.node, r.split.value.1]), r.added)
  }

  // ----- delete -----

  // The two neighbours after moving the last entry of `left` to the front of `child`, and the
  // separator between them.
  function BorrowFromLeft(left: Tree, sep: Key, child: Tree): (r: (Tree, Key, Tree))
    requires Shaped(left) && Shaped(child) && Height(left) == Height(child) && |left.keys| > 0
    ensures Shaped(r.0) && Shaped(r.2) && Height(r.0) == Height(r.2) == Height(child)
  {
    var n := |left.keys| - 1;
    if child.Leaf? then
      (NewLeaf(left.keys[..n], left.values[..n]), left.keys[n],
       NewLeaf([left.keys[n]] + child.keys, [left.values[n]] + child.values))
    else
      (NewInternal(left.keys[..n], left.children[..n + 1]), left.keys[n],
       NewInternal([sep] + child.keys, [left.children[n + 1]] + child.children))
  }

  function BorrowFromRight(child: Tree, sep: Key, right: Tree): (r: (Tree, Key, Tree))
    requires Shaped(right) && Shaped(child) && Height(right) == Height(child) && |right.keys| > 1
    ensures Shaped(r.0) && Shaped(r.2) && Height(r.0) == Height(r.2) == Height(child)
  {
    if child.Leaf? then
      (NewLeaf(child.keys + [right.keys[0]], child.values + [right.values[0]]), right.keys[1],
       NewLeaf(right.keys[1..], right.values[1..]))
    else
      (NewInternal(child.keys + [sep], child.children + [right.children[0]]), right.keys[0],
       NewInternal(right.keys[1..], right.children[1..]))
  }

  function Merge(left: Tree, sep: Key, right: Tree): (r: Tree)
    requires Shaped(left) && Shaped(right) && Height(left) == Height(right)
    ensures Shaped(r) && Height(r) == Height(left)
  {
    if left.Leaf? then NewLeaf(left.keys + right.keys, left.values + right.values)
    else NewInternal(left.keys + [sep] + right.keys, left.children + right.children)
  }

  // Two adjacent children, from position `i`, replaced by two others around a new separator.
  function ReplacePair(keys: seq<Key>, children: seq<Tree>, i: nat, p: (Tree, Key, Tree)): (r: Tree)
    requires Shaped(NewInternal(keys, children)) && i < |keys|
    requires Shaped(p.0) && Shaped(p.2) && Height(p.0) == Height(p.2) == Height(children[0])
    ensures Shaped(r) && Height(r) == Height(NewInternal(keys, children))
  {
    NewInternal(keys[i := p.1], children[..i] + [p.0, p.2] + children[i + 2..])
  }

  // Two adjacent children, from position `i`, merged into one.
  function MergePair(keys: seq<Key>, children: seq<Tree>, i: nat): (r: Tree)
    requires Shaped(NewInternal(keys, children)) && i < |keys|
    ensures Shaped(r) && Height(r) == Height(NewInternal(keys, children))
  {
    NewInternal(keys[..i] + keys[i + 1..],
                children[..i] + [Merge(children[i], keys[i], children[i + 1])] + children[i + 2..])
  }

  // Repair the under-full child at `i`: borrow from the left if it can spare, else from the
  // right, else merge with the left, else with the right.
  function Rebalance(order: nat, keys: seq<Key>, children: seq<Tree>, i: nat): (r: Tree)
    requires order >= 3 && |keys| >= 1 && i <= |keys| && Shaped(NewInternal(keys, children))
    ensures Shaped(r) && Height(r) == Height(NewInternal(keys, children))
  {
    var min := order / 2;
    if i > 0 && |children[i - 1].keys| > min then
      ReplacePair(keys, children, i - 1, BorrowFromLeft(children[i - 1], keys[i - 1], children[i]))
    else if i < |keys| && |children[i + 1].keys| > min then
      ReplacePair(keys, children, i, BorrowFromRight(children[i], keys[i], children[i + 1]))
    else if i > 0 then MergePair(keys, children, i - 1)
    else MergePair(keys, children, i)
  }

  // None is the source's KeyError. An internal node has a separator, or `_rebalance` would have
  // no sibling to turn to.
  predicate Separated(t: Tree) {
    t.Internal? ==> |t.keys| >= 1 && forall c :: c in t.children ==> Separated(c)
  }

  function DeleteRec(order: nat, t: Tree, k: Key): (r: Option<Tree>)
    requires order >= 3 && Shaped(t) && Separated(t)
    ensures r.Some? ==> Shaped(r.value) && Height(r.value) == Height(t)
    decreases t
  {
    match t
    case Leaf(_, keys, values) =>
      var i := BisectLeft(keys, k);
      if i >= |keys| || keys[i] != k then None
      else Some(NewLeaf(keys[..i] + keys[i + 1..], values[..i] + values[i + 1..]))
    case Internal(_, keys, children) =>
      var i := BisectRight(keys, k);
      var child := DeleteRec(order, children[i], k);
      if child.None? then None
      else
        var cs := children[i := child.value];
        if |child.value.keys| >= order / 2 then Some(NewInternal(keys, cs))
        else Some(Rebalance(order, keys, cs, i))
  }

  // The new root, or None for the empty tree; the outer None is KeyError.
  function DeleteRoot(order: nat, root: Option<Tree>, k: Key): Option<Option<Tree>>
    requires order >= 3 && (root.Some? ==> Shaped(root.value) && Separated(root.value))
  {
    if root.None? then None
    else
      var r := DeleteRec(order, root.value, k);
      if r.None? then None
      else if r.value.Internal? && |r.value.keys| == 0 then Some(Some(r.value.children[0]))
      else if r.value.Leaf? && |r.value.keys| == 0 then Some(None)
      else Some(r)
  }
}
