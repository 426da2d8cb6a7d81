/** The reference binary search tree (`imustore/binary_tree.py`), held to the same sorted list as
    the B+ tree, so that the two engines answer alike. */
module BinaryTree {
  import opened Prelude
  import opened Bytes
  import opened KeyOrder
  import opened SortedItems
  import opened BPlusTree
  import B = BPlusTheorems

  // `Empty` is the reference with address 0 that follows to nothing.
  datatype BinTree = Empty | Node(left: BinTree, key: Key, value: ValueRef, right: BinTree, length: nat)

  function Length(t: BinTree): nat {
    if t.Empty? then 0 else t.length
  }

  function Make(left: BinTree, key: Key, value: ValueRef, right: BinTree): BinTree {
    Node(left, key, value, right, 1 + Length(left) + Length(right))
  }

  function List(t: BinTree): seq<Item> {
    if t.Empty? then [] else List(t.left) + [Item(t.key, t.value.payload)] + List(t.right)
  }

  function Insert(t: BinTree, k: Key, v: ValueRef): BinTree {
    match t
    case Empty => Make(Empty, k, v, Empty)
    case Node(l, key, value, r, _) =>
      if k < key then Make(Insert(l, k, v), key, value, r)
      else if key < k then Make(l, key, value, Insert(r, k, v))
      else Make(l, k, v, r)
  }

  // The leftmost node's entry, and the tree without it.
  function PopMin(t: BinTree): (Key, ValueRef, BinTree)
    requires t.Node?
  {
    if t.left.Empty? then (t.key, t.value, t.right)
    else
      var (k, v, rest) := PopMin(t.left);
      (k, v, Make(rest, t.key, t.value, t.right))
  }

  // None is KeyError.
  function Delete(t: BinTree, k: Key): Option<BinTree> {
    match t
    case Empty => None
    case Node(l, key, value, r, _) =>
      if k < key then
        var d := Delete(l, k);
        if d.None? then None else Some(Make(d.value, key, value, r))
      else if key < k then
        var d := Delete(r, k);
        if d.None? then None else Some(Make(l, key, value, d.value))
      else if l.Empty? then Some(r)
      else if r.Empty? then Some(l)
      else
        var (sk, sv, rest) := PopMin(r);
        Some(Make(l, sk, sv, rest))
  }

  function Range(t: BinTree, start: Option<Key>, stop: Option<Key>): seq<Item> {
    match t
    case Empty => []
    case Node(l, key, value, r, _) =>
      var from := start.None? || start.value <= key;
      var until := stop.None? || key < stop.value;
      (if from then Range(l, start, stop) else [])
      + (if from && until then [Item(key, value.payload)] else [])
      + (if until then Range(r, start, stop) else [])
  }

  // ----- the invariant -----

  predicate Lengths(t: BinTree) {
    t.Node? ==> Lengths(t.left) && Lengths(t.right) && t.length == 1 + Length(t.left) + Length(t.right)
  }

  // Ordered, with every cached length right.
  predicate Good(t: BinTree) {
    Sorted(List(t)) && Lengths(t)
  }

  lemma {:induction false} LengthIsCount(t: BinTree)
    requires Lengths(t)
    ensures Length(t) == |List(t)|
  {
    if t.Node? {
      LengthIsCount(t.left);
      LengthIsCount(t.right);
    }
  }

  lemma {:induction false} Parts(t: BinTree)
    requires t.Node? && Sorted(List(t))
    ensures Sorted(List(t.left)) && Sorted(List(t.right))
    ensures AllBelow(List(t.left), t.key) && AllAbove(List(t.right), t.key)
  {
    hide Sorted, AllBelow, AllAbove;
    SortedAround(List(t.left), Item(t.key, t.value.payload), List(t.right));
  }

  // ----- the operations -----

  lemma {:induction false} InsertOK(t: BinTree, k: Key, v: ValueRef)
    requires Good(t)
    ensures Good(Insert(t, k, v)) && List(Insert(t, k, v)) == Put(List(t), k, v.payload)
  {
    InsertList(t, k, v);
    InsertLengths(t, k, v);
    PutIsUpdate(List(t), k, v.payload);
  }

  lemma {:induction false} InsertLengths(t: BinTree, k: Key, v: ValueRef)
    requires Lengths(t)
    ensures Lengths(Insert(t, k, v))
  {
    if t.Node? {
      InsertLengths(t.left, k, v);
      InsertLengths(t.right, k, v);
    }
  }

  lemma {:induction false} InsertList(t: BinTree, k: Key, v: ValueRef)
    requires Sorted(List(t))
    ensures List(Insert(t, k, v)) == Put(List(t), k, v.payload)
  {
    if t.Node? {
      hide Sorted, AllBelow, AllAbove, Put;
      var l, x, r := List(t.left), Item(t.key, t.value.payload), List(t.right);
      Parts(t);
      if k < t.key {
        InsertList(t.left, k, v);
        BeforeItem(l, x, r, k, v.payload);
      } else if t.key < k {
        InsertList(t.right, k, v);
        AfterItem(l, x, r, k, v.payload);
      } else {
        AtItem(l, x, r, v.payload);
      }
    }
  }

  lemma {:induction false} PopMinOK(t: BinTree)
    requires t.Node? && Lengths(t)
    ensures var (k, v, rest) := PopMin(t); List(t) == [Item(k, v.payload)] + List(rest) && Lengths(rest)
  {
    if t.left.Node? {
      PopMinOK(t.left);
    }
  }

  lemma {:induction false} DeleteOK(t: BinTree, k: Key)
    requires Good(t)
    ensures Delete(t, k).None? <==> Find(List(t), k).None?
    ensures Delete(t, k).Some? ==> Good(Delete(t, k).value) && List(Delete(t, k).value) == Remove(List(t), k)
  {
    hide Sorted, AllBelow, AllAbove, Remove, Find, PopMin;
    RemoveIsDeletion(List(t), k);
    if t.Node? {
      Parts(t);
      var l, x, r := List(t.left), Item(t.key, t.value.payload), List(t.right);
      if k < t.key {
        DeleteOK(t.left, k);
        BeforeItem(l, x, r, k, []);
      } else if t.key < k {
        DeleteOK(t.right, k);
        AfterItem(l, x, r, k, []);
      } else {
        DeleteHere(t);
      }
    } else {
      assert Find([], k) == None;
    }
  }

  lemma {:induction false} DeleteHere(t: BinTree)
    requires t.Node? && Good(t)
    ensures Find(List(t), t.key).Some?
    ensures Delete(t, t.key).Some? && Lengths(Delete(t, t.key).value)
    ensures List(Delete(t, t.key).value) == Remove(List(t), t.key)
  {
    hide Sorted, AllBelow, AllAbove, Remove, Find;
    Parts(t);
    AtItem(List(t.left), Item(t.key, t.value.payload), List(t.right), []);
    if t.left.Node? && t.right.Node? {
      PopMinOK(t.right);
      hide PopMin;
      var (k, v, rest) := PopMin(t.right);
      assert List(Make(t.left, k, v, rest)) == List(t.left) + ([Item(k, v.payload)] + List(rest));
    }
  }

  lemma {:induction false} RangeOK(t: BinTree, start: Option<Key>, stop: Option<Key>)
    requires Sorted(List(t))
    ensures Range(t, start, stop) == Select(List(t), start, stop)
  {
    if t.Node? {
      hide Sorted, Select;
      Parts(t);
      var l, x, r := List(t.left), Item(t.key, t.value.payload), List(t.right);
      RangeOK(t.left, start, stop);
      RangeOK(t.right, start, stop);
      SelectConcat(l + [x], r, start, stop);
      SelectConcat(l, [x], start, stop);
      SelectOne(x, start, stop);
      if start.Some? && t.key < start.value {
        SelectNone(l, start, stop);
      }
      if stop.Some? && t.key >= stop.value {
        SelectNone(r, start, stop);
      }
    }
  }

  lemma {:induction false} SelectOne(x: Item, start: Option<Key>, stop: Option<Key>)
    ensures Select([x], start, stop) == if Within(x.key, start, stop) then [x] else []
  {
    assert [x][1..] == [] && Select([], start, stop) == [];
  }

  // The lookup loop.
  method Get(t: BinTree, k: Key) returns (r: Option<bytes>)
    requires Good(t)
    ensures r == Find(List(t), k)
  {
    var node := t;
    while node.Node?
      invariant Good(node) && Find(List(node), k) == Find(List(t), k)
      decreases node
    {
      Parts(node);
      ghost var l, x, rest := List(node.left), Item(node.key, node.value.payload), List(node.right);
      if k < node.key {
        BeforeItem(l, x, rest, k, []);
        node := node.left;
      } else if node.key < k {
        AfterItem(l, x, rest, k, []);
        node := node.right;
      } else {
        AtItem(l, x, rest, []);
        return Some(node.value.payload);
      }
    }
    r := None;
  }

  // ----- both engines, side by side -----

  function Step(t: BinTree, op: B.Op): BinTree {
    match op
    case SetOp(k, v) => Insert(t, k, ValueRef(0, v))
    case DelOp(k) => var d := Delete(t, k); if d.None? then t else d.value
  }

  function Run(ops: seq<B.Op>): BinTree {
    if ops == [] then Empty else Step(Run(ops[..|ops| - 1]), ops[|ops| - 1])
  }

  lemma {:induction false} RunIsModel(ops: seq<B.Op>)
    ensures Good(Run(ops)) && ToMap(List(Run(ops))) == B.Model(ops)
  {
    if ops != [] {
      var init, op := ops[..|ops| - 1], ops[|ops| - 1];
      RunIsModel(init);
      var xs := List(Run(init));
      match op {
        case SetOp(k, v) =>
          InsertOK(Run(init), k, ValueRef(0, v));
          PutIsUpdate(xs, k, v);
        case DelOp(k) =>
          DeleteOK(Run(init), k);
          RemoveIsDeletion(xs, k);
          FindIsLookup(xs, k);
      }
    }
  }

  // After any history the two engines hold the same items in the same order, so they agree on
  // every lookup, every scan, every length and every failing deletion.
  lemma {:induction false} EnginesAgree(order: nat, ops: seq<B.Op>)
    requires order >= 3
    ensures var s := B.Run(order, ops);
            && (s.root.Some? ==> Shaped(s.root.value))
            && List(Run(ops)) == B.RootItems(s.root)
            && Length(Run(ops)) == s.count
  {
    var s := B.Run(order, ops);
    RunIsModel(ops);
    hide B.Run, Run, B.Model;
    B.GoodRootItems(order, s.root);
    SameMapSameList(List(Run(ops)), B.RootItems(s.root));
    LengthIsCount(Run(ops));
    MapSize(List(Run(ops)));
  }
}
