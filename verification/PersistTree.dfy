/** Updates share what is already stored: a tree whose addresses are right stays so under every
    insertion and deletion, and saving changes neither the meaning nor the shape of a tree. */
module PersistTree {
  import opened Prelude
  import opened Bytes
  import opened KeyOrder
  import opened SortedItems
  import opened BPlusTree
  import opened BPlusInvariant
  import opened BPlusTheorems
  import opened BPlusAudit
  import opened Persist

  // ----- addresses do not matter to a tree's meaning -----

  lemma {:induction false} AlikeWF(order: nat, t: Tree, u: Tree, lo: Bound, hi: Bound, h: nat)
    requires Alike(t, u) && WF(order, t, lo, hi, h)
    ensures WF(order, u, lo, hi, h)
    decreases h
  {
    if t.Internal? {
      var keys := t.keys;
      forall i | 0 <= i < |u.children|
        ensures Child(order, Lower(lo, keys, i), Upper(keys, hi, i), h - 1, u.children[i])
      {
        assert Child(order, Lower(lo, keys, i), Upper(keys, hi, i), h - 1, t.children[i]);
        AlikeWF(order, t.children[i], u.children[i], Lower(lo, keys, i), Upper(keys, hi, i), h - 1);
      }
    }
  }

  lemma {:induction false} AlikeItems(t: Tree, u: Tree)
    requires Alike(t, u) && Shaped(t) && Shaped(u)
    ensures Items(t) == Items(u)
    decreases t, 0
  {
    if t.Internal? {
      AlikeFlat(t.children, u.children);
    }
  }

  lemma {:induction false} AlikeFlat(ts: seq<Tree>, us: seq<Tree>)
    requires AllAlike(ts, us)
    requires (forall t :: t in ts ==> Shaped(t)) && (forall u :: u in us ==> Shaped(u))
    ensures Flat(ts) == Flat(us)
    decreases ts, 1
  {
    if ts != [] {
      AlikeItems(ts[0], us[0]);
      AlikeFlat(ts[1..], us[1..]);
    }
  }

  lemma {:induction false} AlikeRoot(order: nat, t: Tree, u: Tree)
    requires Alike(t, u) && GoodRoot(order, Some(t))
    ensures GoodRoot(order, Some(u)) && Shaped(t) && Shaped(u) && Items(u) == Items(t)
  {
    var h := Height(t);
    AlikeWF(order, t, u, None, None, h);
    WFShaped(order, t, None, None, h);
    WFShaped(order, u, None, None, h);
    AlikeItems(t, u);
  }

  // ----- updates keep addresses right -----

  predicate SplitBacked(c: Codec, f: bytes, r: Inserted) {
    Backed(c, f, r.node) && (r.split.Some? ==> Backed(c, f, r.split.value.1))
  }

  lemma {:induction false} SplitLeafBacked(c: Codec, f: bytes, order: nat, keys: seq<Key>, values: seq<ValueRef>,
                                           added: bool)
    requires |keys| == |values| && ValuesBacked(c, f, values)
    ensures SplitBacked(c, f, SplitLeaf(order, keys, values, added))
  {
    hide ValueBacked;
  }

  lemma {:induction false} SplitInternalBacked(c: Codec, f: bytes, order: nat, keys: seq<Key>, children: seq<Tree>,
                                               added: bool)
    requires |children| == |keys| + 1 && AllBacked(c, f, children)
    ensures SplitBacked(c, f, SplitInternal(order, keys, children, added))
  {
  }

  lemma {:induction false} InsertBacked(c: Codec, f: bytes, order: nat, t: Tree, k: Key, v: ValueRef)
    requires Shaped(t) && Backed(c, f, t) && ValueBacked(c, f, v)
    ensures SplitBacked(c, f, InsertRec(order, t, k, v))
    decreases t
  {
    hide SplitLeaf, SplitInternal, ValueBacked, Described;
    match t {
      case Leaf(_, keys, values) =>
        var i := BisectLeft(keys, k);
        if i < |keys| && keys[i] == k {
          SplitLeafBacked(c, f, order, keys, values[i := v], false);
        } else {
          SplitLeafBacked(c, f, order, keys[..i] + [k] + keys[i..], values[..i] + [v] + values[i..], true);
        }
      case Internal(_, keys, children) =>
        var i := BisectRight(keys, k);
        InsertBacked(c, f, order, children[i], k, v);
        var r := InsertRec(order, children[i], k, v);
        if r.split.None? {
          SplitInternalBacked(c, f, order, keys, children[i := r.node], r.added);
        } else {
          SplitInternalBacked(c, f, order, keys[..i] + [r.split.value.0] + keys[i..],
                              children[..i] + [r.node, r.split.value.1] + children[i + 1..], r.added);
        }
    }
  }

  lemma {:induction false} BorrowBacked(c: Codec, f: bytes, a: Tree, sep: Key, b: Tree)
    requires Shaped(a) && Shaped(b) && Height(a) == Height(b) && Backed(c, f, a) && Backed(c, f, b)
    ensures |a.keys| > 0 ==> var p := BorrowFromLeft(a, sep, b); Backed(c, f, p.0) && Backed(c, f, p.2)
    ensures |b.keys| > 1 ==> var p := BorrowFromRight(a, sep, b); Backed(c, f, p.0) && Backed(c, f, p.2)
  {
    hide Described, ValueBacked;
  }

  lemma {:induction false} MergeBacked(c: Codec, f: bytes, a: Tree, sep: Key, b: Tree)
    requires Shaped(a) && Shaped(b) && Height(a) == Height(b) && Backed(c, f, a) && Backed(c, f, b)
    ensures Backed(c, f, Merge(a, sep, b))
  {
    hide Described, ValueBacked;
  }

  lemma {:induction false} RebalanceBacked(c: Codec, f: bytes, order: nat, keys: seq<Key>, children: seq<Tree>, i: nat)
    requires order >= 3 && |keys| >= 1 && i <= |keys| && Shaped(NewInternal(keys, children))
    requires AllBacked(c, f, children)
    ensures Backed(c, f, Rebalance(order, keys, children, i))
  {
    hide Described, ValueBacked, BorrowFromLeft, BorrowFromRight, Merge;
    if i > 0 {
      BorrowBacked(c, f, children[i - 1], keys[i - 1], children[i]);
      MergeBacked(c, f, children[i - 1], keys[i - 1], children[i]);
    }
    if i < |keys| {
      BorrowBacked(c, f, children[i], keys[i], children[i + 1]);
      MergeBacked(c, f, children[i], keys[i], children[i + 1]);
    }
  }

  lemma {:induction false} DeleteBacked(c: Codec, f: bytes, order: nat, t: Tree, k: Key)
    requires order >= 3 && Shaped(t) && Separated(t) && Backed(c, f, t)
    ensures var r := DeleteRec(order, t, k); r.Some? ==> Backed(c, f, r.value)
    decreases t
  {
    hide Rebalance, Described, ValueBacked;
    if t.Internal? {
      var i := BisectRight(t.keys, k);
      DeleteBacked(c, f, order, t.children[i], k);
      var r := DeleteRec(order, t.children[i], k);
      if r.Some? && |r.value.keys| < order / 2 {
        RebalanceBacked(c, f, order, t.keys, t.children[i := r.value], i);
      }
    }
  }

  predicate RootBacked(c: Codec, f: bytes, root: Option<Tree>) {
    root.Some? ==> Backed(c, f, root.value)
  }

  lemma {:induction false} StepBacked(c: Codec, f: bytes, order: nat, s: State, op: Op)
    requires GoodRoot(order, s.root) && RootBacked(c, f, s.root)
    ensures RootBacked(c, f, Step(order, s, op).root)
  {
    GoodRootItems(order, s.root);
    match op {
      case SetOp(k, v) =>
        if s.root.Some? { InsertBacked(c, f, order, s.root.value, k, ValueRef(0, v)); }
      case DelOp(k) =>
        if s.root.Some? { DeleteBacked(c, f, order, s.root.value, k); }
    }
  }

  // ----- what the audit finds -----

  // Following a value reference through the file.
  function Readable(c: Codec, f: bytes): Loader {
    v => ValueBacked(c, f, v)
  }

  lemma {:induction false} BackedLoads(c: Codec, f: bytes, t: Tree)
    requires Backed(c, f, t)
    ensures AllLoad(Readable(c, f), t)
    decreases t
  {
    if t.Internal? {
      forall u | u in t.children ensures AllLoad(Readable(c, f), u) { BackedLoads(c, f, u); }
    }
  }

  lemma {:induction false} RefinesAudits(c: Codec, f: bytes, order: nat, s: State, model: map<Key, bytes>)
    requires Refines(order, s, model) && RootBacked(c, f, s.root)
    ensures Audit(Readable(c, f), order, s.root, s.count).errors == 0
  {
    var xs := RootItems(s.root);
    GoodRootItems(order, s.root);
    MapSize(xs);
    if s.root.Some? { BackedLoads(c, f, s.root.value); }
    GoodRootPasses(Readable(c, f), order, s.root, s.count);
  }

  // After any sequence of operations `audit` reports no error, whatever the file.
  lemma {:induction false} AuditOfRun(c: Codec, f: bytes, order: nat, ops: seq<Op>)
    requires order >= 3
    ensures RootBacked(c, f, Run(order, ops).root)
    ensures var s := Run(order, ops); Audit(Readable(c, f), order, s.root, s.count).errors == 0
  {
    hide Step, Audit;
    if ops != [] {
      var before := ops[..|ops| - 1];
      AuditOfRun(c, f, order, before);
      StepBacked(c, f, order, Run(order, before), ops[|ops| - 1]);
    }
    RefinesAudits(c, f, order, Run(order, ops), Model(ops));
  }

  // ----- updates bring in no keys but strings -----

  ghost predicate SplitRanked(r: Inserted) {
    Ranked(r.node) && (r.split.Some? ==> IsRank(r.split.value.0) && Ranked(r.split.value.1))
  }

  lemma {:induction false} SplitLeafRanked(order: nat, keys: seq<Key>, values: seq<ValueRef>, added: bool)
    requires |keys| == |values| && forall k :: k in keys ==> IsRank(k)
    ensures SplitRanked(SplitLeaf(order, keys, values, added))
  {
    hide IsRank;
  }

  lemma {:induction false} SplitInternalRanked(order: nat, keys: seq<Key>, children: seq<Tree>, added: bool)
    requires |children| == |keys| + 1 && AllRanked(children) && forall k :: k in keys ==> IsRank(k)
    ensures SplitRanked(SplitInternal(order, keys, children, added))
  {
    hide IsRank;
    var r := SplitInternal(order, keys, children, added);
    assert Ranked(r.node);
    assert r.split.Some? ==> IsRank(r.split.value.0) && Ranked(r.split.value.1);
  }

  lemma {:induction false} InsertRanked(order: nat, t: Tree, k: Key, v: ValueRef)
    requires Shaped(t) && Ranked(t) && IsRank(k)
    ensures SplitRanked(InsertRec(order, t, k, v))
    decreases t
  {
    hide SplitLeaf, SplitInternal, IsRank;
    match t {
      case Leaf(_, keys, values) =>
        var i := BisectLeft(keys, k);
        if i < |keys| && keys[i] == k {
          SplitLeafRanked(order, keys, values[i := v], false);
        } else {
          SplitLeafRanked(order, keys[..i] + [k] + keys[i..], values[..i] + [v] + values[i..], true);
        }
      case Internal(_, keys, children) =>
        var i := BisectRight(keys, k);
        InsertRanked(order, children[i], k, v);
        var r := InsertRec(order, children[i], k, v);
        if r.split.None? {
          SplitInternalRanked(order, keys, children[i := r.node], r.added);
        } else {
          SplitInternalRanked(order, keys[..i] + [r.split.value.0] + keys[i..],
                              children[..i] + [r.node, r.split.value.1] + children[i + 1..], r.added);
        }
    }
  }

  lemma {:induction false} BorrowRanked(a: Tree, sep: Key, b: Tree)
    requires Shaped(a) && Shaped(b) && Height(a) == Height(b) && Ranked(a) && Ranked(b) && IsRank(sep)
    ensures |a.keys| > 0 ==> var p := BorrowFromLeft(a, sep, b); Ranked(p.0) && IsRank(p.1) && Ranked(p.2)
    ensures |b.keys| > 1 ==> var p := BorrowFromRight(a, sep, b); Ranked(p.0) && IsRank(p.1) && Ranked(p.2)
  {
    hide IsRank;
  }

  lemma {:induction false} MergeRanked(a: Tree, sep: Key, b: Tree)
    requires Shaped(a) && Shaped(b) && Height(a) == Height(b) && Ranked(a) && Ranked(b) && IsRank(sep)
    ensures Ranked(Merge(a, sep, b))
  {
    hide IsRank;
  }

  lemma {:induction false} RebalanceRanked(order: nat, keys: seq<Key>, children: seq<Tree>, i: nat)
    requires order >= 3 && |keys| >= 1 && i <= |keys| && Shaped(NewInternal(keys, children))
    requires Ranked(NewInternal(keys, children))
    ensures Ranked(Rebalance(order, keys, children, i))
  {
    hide IsRank, BorrowFromLeft, BorrowFromRight, Merge;
    if i > 0 {
      BorrowRanked(children[i - 1], keys[i - 1], children[i]);
      MergeRanked(children[i - 1], keys[i - 1], children[i]);
    }
    if i < |keys| {
      BorrowRanked(children[i], keys[i], children[i + 1]);
      MergeRanked(children[i], keys[i], children[i + 1]);
    }
  }

  lemma {:induction false} DeleteRanked(order: nat, t: Tree, k: Key)
    requires order >= 3 && Shaped(t) && Separated(t) && Ranked(t)
    ensures var r := DeleteRec(order, t, k); r.Some? ==> Ranked(r.value)
    decreases t
  {
    hide Rebalance, IsRank;
    if t.Internal? {
      var i := BisectRight(t.keys, k);
      DeleteRanked(order, t.children[i], k);
      var r := DeleteRec(order, t.children[i], k);
      if r.Some? && |r.value.keys| < order / 2 {
        RebalanceRanked(order, t.keys, t.children[i := r.value], i);
      }
    }
  }

  ghost predicate RootRanked(root: Option<Tree>) {
    root.Some? ==> Ranked(root.value)
  }

  lemma {:induction false} StepRanked(order: nat, s: State, op: Op)
    requires GoodRoot(order, s.root) && RootRanked(s.root) && IsRank(op.key)
    ensures RootRanked(Step(order, s, op).root)
  {
    hide IsRank;
    GoodRootItems(order, s.root);
    match op {
      case SetOp(k, v) =>
        if s.root.Some? { InsertRanked(order, s.root.value, k, ValueRef(0, v)); }
      case DelOp(k) =>
        if s.root.Some? { DeleteRanked(order, s.root.value, k); }
    }
  }

  lemma {:induction false} AlikeRanked(t: Tree, u: Tree)
    requires Alike(t, u) && Ranked(t)
    ensures Ranked(u)
    decreases t
  {
    hide IsRank;
    if t.Internal? {
      forall c | c in u.children ensures Ranked(c) {
        var i :| 0 <= i < |u.children| && u.children[i] == c;
        AlikeRanked(t.children[i], u.children[i]);
      }
    }
  }
}
