/** `audit`: what it accepts, and that it accepts every well-formed tree whose values load. */
module BPlusAudit {
  import opened Prelude
  import opened KeyOrder
  import opened BPlusTree
  import opened BPlusInvariant
  import opened BPlusTheorems

  // The number of problems found, and the height and number of leaf keys counted on the way.
  datatype Report = Report(errors: nat, height: nat, leafKeys: nat)

  datatype Sweep = Sweep(errors: nat, heights: seq<nat>, leafKeys: nat)

  function One(b: bool): nat {
    if b then 1 else 0
  }

  function Disordered(keys: seq<Key>): nat {
    if |keys| < 2 then 0 else One(!(keys[0] < keys[1])) + Disordered(keys[1..])
  }

  function Misplaced(keys: seq<Key>, lo: Bound, hi: Bound): nat {
    if keys == [] then 0 else One(!From(lo, keys[0])) + One(!Below(keys[0], hi)) + Misplaced(keys[1..], lo, hi)
  }

  function Tallest(hs: seq<nat>): nat {
    if hs == [] then 0 else Max(hs[0], Tallest(hs[1..]))
  }

  predicate Uneven(hs: seq<nat>) {
    exists i :: 0 <= i < |hs| && hs[i] != hs[0]
  }

  // Whether a value reference can be followed. One that has not been stored yet always can.
  type Loader = ValueRef -> bool

  function Unloadable(loads: Loader, values: seq<ValueRef>): nat {
    if values == [] then 0 else One(!loads(values[0])) + Unloadable(loads, values[1..])
  }

  function Check(loads: Loader, order: nat, t: Tree, lo: Bound, hi: Bound, isRoot: bool): Report
    decreases t, 0
  {
    var own := Disordered(t.keys) + Misplaced(t.keys, lo, hi)
               + One(|t.keys| > order) + One(!isRoot && |t.keys| < order / 2);
    match t
    case Leaf(_, keys, values) =>
      Report(own + One(|values| != |keys|) + Unloadable(loads, values[..Min(|keys|, |values|)]), 1, |keys|)
    case Internal(_, keys, children) =>
      var sub := CheckChildren(loads, order, lo, hi, keys, children);
      Report(own + One(|children| != |keys| + 1) + One(isRoot && |keys| < 1) + sub.errors + One(Uneven(sub.heights)),
             1 + Tallest(sub.heights), sub.leafKeys)
  }

  // The children in order, each between the separators around it. (With more children than
  // separators allow, the source stops with an index error after reporting the mismatch.)
  function CheckChildren(loads: Loader, order: nat, lo: Bound, hi: Bound, keys: seq<Key>, children: seq<Tree>): Sweep
    decreases children, 1
  {
    if children == [] then Sweep(0, [], 0)
    else
      var r := Check(loads, order, children[0], lo, Upper(keys, hi, 0), false);
      var rest := if keys == [] then CheckChildren(loads, order, lo, hi, [], children[1..])
                  else CheckChildren(loads, order, Some(keys[0]), hi, keys[1..], children[1..]);
      Sweep(r.errors + rest.errors, [r.height] + rest.heights, r.leafKeys + rest.leafKeys)
  }

  function Audit(loads: Loader, order: nat, root: Option<Tree>, count: int): Report {
    var r := if root.None? then Report(0, 0, 0) else Check(loads, order, root.value, None, None, true);
    r.(errors := r.errors + One(r.leafKeys != count))
  }

  // What `check` looks for, said outright.
  ghost predicate Audited(loads: Loader, order: nat, t: Tree, lo: Bound, hi: Bound, isRoot: bool, h: nat)
    decreases t
  {
    && SortedKeys(t.keys)
    && (forall i :: 0 <= i < |t.keys| ==> From(lo, t.keys[i]) && Below(t.keys[i], hi))
    && |t.keys| <= order && (isRoot || order / 2 <= |t.keys|)
    && match t
       case Leaf(_, keys, values) => |values| == |keys| && h == 1 && forall v :: v in values ==> loads(v)
       case Internal(_, keys, children) =>
         |children| == |keys| + 1 && (isRoot ==> |keys| >= 1) && h >= 1
             && KidsAudited(loads, order, lo, hi, h - 1, keys, children)
  }

  ghost predicate KidsAudited(loads: Loader, order: nat, lo: Bound, hi: Bound, h: nat, keys: seq<Key>,
                              children: seq<Tree>)
    requires |children| == |keys| + 1
    decreases children
  {
    forall i :: 0 <= i < |children| ==>
      Audited(loads, order, children[i], Lower(lo, keys, i), Upper(keys, hi, i), false, h)
  }

  // ----- no error means what it says -----

  lemma {:induction false} DisorderedZero(keys: seq<Key>)
    ensures Disordered(keys) == 0 <==> SortedKeys(keys)
  {
    if |keys| >= 2 {
      DisorderedZero(keys[1..]);
      if SortedKeys(keys[1..]) && keys[0] < keys[1] {
        forall i, j | 0 <= i < j < |keys| ensures keys[i] < keys[j] {
          assert keys[j] == keys[1..][j - 1];
          if i > 0 { assert keys[i] == keys[1..][i - 1]; }
          else { assert keys[1] <= keys[j]; }
        }
      }
      if SortedKeys(keys) {
        assert forall i :: 0 <= i < |keys[1..]| ==> keys[1..][i] == keys[i + 1];
      }
    }
  }

  lemma {:induction false} MisplacedZero(keys: seq<Key>, lo: Bound, hi: Bound)
    ensures Misplaced(keys, lo, hi) == 0 <==> forall i :: 0 <= i < |keys| ==> From(lo, keys[i]) && Below(keys[i], hi)
  {
    if keys != [] {
      MisplacedZero(keys[1..], lo, hi);
      assert forall i :: 0 < i < |keys| ==> keys[i] == keys[1..][i - 1];
      assert forall i :: 0 <= i < |keys[1..]| ==> keys[1..][i] == keys[i + 1];
    }
  }

  lemma {:induction false} UnloadableZero(loads: Loader, values: seq<ValueRef>)
    ensures Unloadable(loads, values) == 0 <==> forall v :: v in values ==> loads(v)
  {
    if values != [] {
      UnloadableZero(loads, values[1..]);
      assert forall v :: v in values <==> v == values[0] || v in values[1..];
    }
  }

  predicate AllAre(hs: seq<nat>, h: nat) {
    forall i :: 0 <= i < |hs| ==> hs[i] == h
  }

  lemma {:induction false} TallestOfEven(hs: seq<nat>, h: nat)
    requires |hs| > 0 && AllAre(hs, h)
    ensures Tallest(hs) == h
  {
    if |hs| > 1 {
      TallestOfEven(hs[1..], h);
    }
  }

  lemma {:induction false} EvenHeights(hs: seq<nat>, h: nat)
    requires |hs| > 0
    ensures !Uneven(hs) && Tallest(hs) == h <==> AllAre(hs, h)
  {
    if !Uneven(hs) {
      TallestOfEven(hs, hs[0]);
    }
    if AllAre(hs, h) {
      TallestOfEven(hs, h);
    }
  }

  // `check` reports no error exactly on the nodes it should accept, with their height.
  lemma {:induction false} CheckIsAudited(loads: Loader, order: nat, t: Tree, lo: Bound, hi: Bound, isRoot: bool,
                                          h: nat)
    ensures var r := Check(loads, order, t, lo, hi, isRoot);
            r.errors == 0 && r.height == h <==> Audited(loads, order, t, lo, hi, isRoot, h)
    decreases t, 0
  {
    hide Disordered, Misplaced, Tallest, Uneven, AllAre, CheckChildren, KidsAudited, SortedKeys, Unloadable, From,
        Below;
    DisorderedZero(t.keys);
    MisplacedZero(t.keys, lo, hi);
    if t.Leaf? && |t.values| == |t.keys| {
      UnloadableZero(loads, t.values);
      assert t.values[..|t.values|] == t.values;
    }
    if t.Internal? && |t.children| == |t.keys| + 1 {
      var sub := CheckChildren(loads, order, lo, hi, t.keys, t.children);
      SweepLength(loads, order, lo, hi, t.keys, t.children);
      if h >= 1 {
        ChildrenAreAudited(loads, order, lo, hi, t.keys, t.children, h - 1);
        EvenHeights(sub.heights, h - 1);
      }
    }
  }

  lemma {:induction false} SweepLength(loads: Loader, order: nat, lo: Bound, hi: Bound, keys: seq<Key>,
                                       children: seq<Tree>)
    ensures |CheckChildren(loads, order, lo, hi, keys, children).heights| == |children|
    decreases |children|
  {
    if children != [] {
      if keys == [] { SweepLength(loads, order, lo, hi, [], children[1..]); }
      else { SweepLength(loads, order, Some(keys[0]), hi, keys[1..], children[1..]); }
    }
  }

  lemma {:induction false} ChildrenAreAudited(loads: Loader, order: nat, lo: Bound, hi: Bound, keys: seq<Key>,
                                              children: seq<Tree>, h: nat)
    requires |children| == |keys| + 1
    ensures var s := CheckChildren(loads, order, lo, hi, keys, children);
            s.errors == 0 && AllAre(s.heights, h) <==> KidsAudited(loads, order, lo, hi, h, keys, children)
    decreases children, 1
  {
    CheckIsAudited(loads, order, children[0], lo, Upper(keys, hi, 0), false, h);
    if keys == [] {
      assert children[1..] == [] && CheckChildren(loads, order, lo, hi, [], children[1..]) == Sweep(0, [], 0);
      AllAreStep(Check(loads, order, children[0], lo, Upper(keys, hi, 0), false).height, [], h);
      hide Check, AllAre, Audited;
    } else {
      hide Check, AllAre, Audited;
      ChildrenAreAudited(loads, order, Some(keys[0]), hi, keys[1..], children[1..], h);
      var rest := CheckChildren(loads, order, Some(keys[0]), hi, keys[1..], children[1..]);
      AllAreStep(Check(loads, order, children[0], lo, Upper(keys, hi, 0), false).height, rest.heights, h);
      KidsAuditedStep(loads, order, lo, hi, h, keys, children);
    }
  }

  lemma {:induction false} AllAreStep(x: nat, hs: seq<nat>, h: nat)
    ensures AllAre([x] + hs, h) <==> x == h && AllAre(hs, h)
  {
    if AllAre([x] + hs, h) {
      assert ([x] + hs)[0] == x;
      assert forall i :: 0 <= i < |hs| ==> hs[i] == ([x] + hs)[i + 1];
    }
  }

  lemma {:induction false} KidsAuditedStep(loads: Loader, order: nat, lo: Bound, hi: Bound, h: nat, keys: seq<Key>,
                                           children: seq<Tree>)
    requires |children| == |keys| + 1 && keys != []
    ensures KidsAudited(loads, order, lo, hi, h, keys, children) <==>
              && Audited(loads, order, children[0], lo, Some(keys[0]), false, h)
              && KidsAudited(loads, order, Some(keys[0]), hi, h, keys[1..], children[1..])
  {
    var ks, cs := keys[1..], children[1..];
    if KidsAudited(loads, order, lo, hi, h, keys, children) {
      assert Audited(loads, order, children[0], Lower(lo, keys, 0), Upper(keys, hi, 0), false, h);
      forall i | 0 <= i < |cs|
        ensures Audited(loads, order, cs[i], Lower(Some(keys[0]), ks, i), Upper(ks, hi, i), false, h)
      {
        assert Audited(loads, order, children[i + 1], Lower(lo, keys, i + 1), Upper(keys, hi, i + 1), false, h);
      }
    }
    if Audited(loads, order, children[0], lo, Some(keys[0]), false, h)
        && KidsAudited(loads, order, Some(keys[0]), hi, h, ks, cs) {
      forall i | 0 <= i < |children|
        ensures Audited(loads, order, children[i], Lower(lo, keys, i), Upper(keys, hi, i), false, h)
      {
        if i > 0 {
          assert Audited(loads, order, cs[i - 1], Lower(Some(keys[0]), ks, i - 1), Upper(ks, hi, i - 1), false, h);
        }
      }
    }
  }

  // ----- the operations' trees pass -----

  // Every value in the tree can be followed.
  predicate AllLoad(loads: Loader, t: Tree) {
    match t
    case Leaf(_, _, values) => forall v :: v in values ==> loads(v)
    case Internal(_, _, children) => forall c :: c in children ==> AllLoad(loads, c)
  }

  lemma {:induction false} AuditedLoads(loads: Loader, order: nat, t: Tree, lo: Bound, hi: Bound, isRoot: bool, h: nat)
    requires Audited(loads, order, t, lo, hi, isRoot, h)
    ensures AllLoad(loads, t)
    decreases t
  {
    if t.Internal? {
      forall c | c in t.children ensures AllLoad(loads, c) {
        var i :| 0 <= i < |t.children| && t.children[i] == c;
        AuditedLoads(loads, order, c, Lower(lo, t.keys, i), Upper(t.keys, hi, i), false, h - 1);
      }
    }
  }

  lemma {:induction false} WFIsAudited(loads: Loader, order: nat, t: Tree, lo: Bound, hi: Bound, isRoot: bool, h: nat)
    requires WF(order, t, lo, hi, h) && |t.keys| <= order
    requires (if isRoot then |t.keys| >= 1 else order / 2 <= |t.keys|) && AllLoad(loads, t)
    ensures Audited(loads, order, t, lo, hi, isRoot, h)
    decreases h
  {
    if t.Internal? {
      forall i | 0 <= i < |t.children|
        ensures Audited(loads, order, t.children[i], Lower(lo, t.keys, i), Upper(t.keys, hi, i), false, h - 1)
      {
        assert Child(order, Lower(lo, t.keys, i), Upper(t.keys, hi, i), h - 1, t.children[i]);
        WFIsAudited(loads, order, t.children[i], Lower(lo, t.keys, i), Upper(t.keys, hi, i), false, h - 1);
      }
    }
  }

  lemma {:induction false} LeafKeysAreItems(loads: Loader, order: nat, t: Tree, lo: Bound, hi: Bound, isRoot: bool)
    requires Shaped(t)
    ensures Check(loads, order, t, lo, hi, isRoot).leafKeys == |Items(t)|
    decreases t, 0
  {
    if t.Internal? { SweepKeysAreItems(loads, order, lo, hi, t.keys, t.children); }
  }

  lemma {:induction false} SweepKeysAreItems(loads: Loader, order: nat, lo: Bound, hi: Bound, keys: seq<Key>,
                                             children: seq<Tree>)
    requires forall c :: c in children ==> Shaped(c)
    ensures CheckChildren(loads, order, lo, hi, keys, children).leafKeys == |Flat(children)|
    decreases children, 1
  {
    if children != [] {
      LeafKeysAreItems(loads, order, children[0], lo, Upper(keys, hi, 0), false);
      if keys == [] { SweepKeysAreItems(loads, order, lo, hi, [], children[1..]); }
      else { SweepKeysAreItems(loads, order, Some(keys[0]), hi, keys[1..], children[1..]); }
    }
  }

  lemma {:induction false} AllLoadAnything(t: Tree)
    ensures AllLoad(_ => true, t)
  {
    if t.Internal? {
      forall c | c in t.children ensures AllLoad(_ => true, c) { AllLoadAnything(c); }
    }
  }

  // The height counted does not depend on which values load.
  lemma {:induction false} SameHeight(loads: Loader, others: Loader, order: nat, t: Tree, lo: Bound, hi: Bound,
                                      isRoot: bool)
    ensures Check(loads, order, t, lo, hi, isRoot).height == Check(others, order, t, lo, hi, isRoot).height
    decreases t, 0
  {
    if t.Internal? { SameHeights(loads, others, order, lo, hi, t.keys, t.children); }
  }

  lemma {:induction false} SameHeights(loads: Loader, others: Loader, order: nat, lo: Bound, hi: Bound,
                                       keys: seq<Key>, children: seq<Tree>)
    ensures CheckChildren(loads, order, lo, hi, keys, children).heights ==
            CheckChildren(others, order, lo, hi, keys, children).heights
    decreases children, 1
  {
    if children != [] {
      SameHeight(loads, others, order, children[0], lo, Upper(keys, hi, 0), false);
      if keys == [] { SameHeights(loads, others, order, lo, hi, [], children[1..]); }
      else { SameHeights(loads, others, order, Some(keys[0]), hi, keys[1..], children[1..]); }
    }
  }

  predicate RootLoads(loads: Loader, root: Option<Tree>) {
    root.Some? ==> AllLoad(loads, root.value)
  }

  // `audit` on a good tree counts its keys and finds fault only with a wrong count or with values
  // that do not load.
  lemma {:induction false} GoodRootPasses(loads: Loader, order: nat, root: Option<Tree>, count: int)
    requires GoodRoot(order, root)
    ensures root.Some? ==> Shaped(root.value)
    ensures var r := Audit(loads, order, root, count);
            && r.leafKeys == |RootItems(root)|
            && (r.errors == 0 <==> count == |RootItems(root)| && RootLoads(loads, root))
            && r.height == if root.None? then 0 else Height(root.value)
  {
    GoodRootItems(order, root);
    if root.Some? {
      var t := root.value;
      var all: Loader := _ => true;
      AllLoadAnything(t);
      WFIsAudited(all, order, t, None, None, true, Height(t));
      CheckIsAudited(all, order, t, None, None, true, Height(t));
      SameHeight(loads, all, order, t, None, None, true);
      if AllLoad(loads, t) { WFIsAudited(loads, order, t, None, None, true, Height(t)); }
      CheckIsAudited(loads, order, t, None, None, true, Height(t));
      if Audited(loads, order, t, None, None, true, Height(t)) {
        AuditedLoads(loads, order, t, None, None, true, Height(t));
      }
      LeafKeysAreItems(loads, order, t, None, None, true);
    }
  }

  // ----- what passes is well formed -----

  // A separator equal to its lower bound would leave no room for the keys of the child before it.
  lemma {:induction false} AuditedIsWF(loads: Loader, order: nat, t: Tree, lo: Bound, hi: Bound, isRoot: bool, h: nat)
    requires order >= 2 && Audited(loads, order, t, lo, hi, isRoot, h)
    ensures WF(order, t, lo, hi, h) && h >= 1
    decreases t
  {
    if t.Internal? {
      forall i | 0 <= i < |t.children|
        ensures Child(order, Lower(lo, t.keys, i), Upper(t.keys, hi, i), h - 1, t.children[i]) && h >= 2
      {
        AuditedIsWF(loads, order, t.children[i], Lower(lo, t.keys, i), Upper(t.keys, hi, i), false, h - 1);
      }
      var first := t.children[0];
      assert Audited(loads, order, first, Lower(lo, t.keys, 0), Upper(t.keys, hi, 0), false, h - 1);
      assert From(lo, first.keys[0]) && Below(first.keys[0], Upper(t.keys, hi, 0));
    }
  }

  // A root without a key that `audit` lets pass: an empty leaf. No operation leaves one.
  predicate BareLeaf(t: Tree) {
    t.Leaf? && t.keys == [] && t.values == []
  }

  /** `audit` is exact: it finds no fault if and only if the tree is well formed, its values load and
      the count is that of its keys. */
  lemma AuditIff(loads: Loader, order: nat, root: Option<Tree>, count: int)
    requires order >= 3
    ensures Audit(loads, order, root, count).errors == 0 <==>
            if root.None? then count == 0 else
              && (GoodRoot(order, root) || BareLeaf(root.value)) && Shaped(root.value)
              && AllLoad(loads, root.value) && count == |Items(root.value)|
  {
    if root.Some? {
      var t := root.value;
      var h := Check(loads, order, t, None, None, true).height;
      CheckIsAudited(loads, order, t, None, None, true, h);
      if Audited(loads, order, t, None, None, true, h) {
        AuditedIsWF(loads, order, t, None, None, true, h);
        WFShaped(order, t, None, None, h);
        AuditedLoads(loads, order, t, None, None, true, h);
        LeafKeysAreItems(loads, order, t, None, None, true);
      }
      if GoodRoot(order, root) {
        GoodRootPasses(loads, order, root, count);
      }
    }
  }
}
