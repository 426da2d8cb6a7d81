/** A collection without its index entries and expiry keys (`imustore/collection.py`): a map from keys
    to fields and a deadline. After every run of the operations, what a reader sees at any time, and
    what a query returns, is what this map says. */
module CollectionModel {
  import opened Prelude
  import opened IndexKeys
  import opened CollectionSpec
  import opened CollectionQuery

  datatype Item = Item(fields: Fields, deadline: Option<real>)

  // Whether an item is still there at time `t`.
  predicate Fresh(item: Item, t: real) {
    item.deadline.None? || t < item.deadline.value
  }

  function Visible(m: map<string, Item>, t: real): map<string, Fields> {
    map k | k in m && Fresh(m[k], t) :: m[k].fields
  }

  // What an operation does to the map.
  function Apply(m: map<string, Item>, a: Action): map<string, Item> {
    match a
    case SetAct(now, k, fields, ttl) => m[k := Item(fields, if ttl.None? then None else Some(now + ttl.value))]
    case DeleteAct(_, k) => m - {k}
    case IndexAct(_, _, _) => m
    case SweepAct(now, _) => map k | k in m && Fresh(m[k], now) :: m[k]
  }

  function Model(actions: seq<Action>): map<string, Item> {
    if actions == [] then map[] else Apply(Model(actions[..|actions| - 1]), actions[|actions| - 1])
  }

  // The map a database stands for.
  function Items(db: Store): map<string, Item> {
    map k | k in db && UserKey(k) && db[k].Doc? :: Item(db[k].fields, DeadlineOf(db, k))
  }

  function DeadlineOf(db: Store, k: string): Option<real> {
    var x := ExpiryKey(k);
    if x in db && db[x].Expiry? then Some(db[x].at) else None
  }

  lemma ViewIsVisible(db: Store, t: real)
    ensures View(db, t) == Visible(Items(db), t)
  {
  }

  // ----- one operation -----

  // Index entries are neither documents nor deadlines, whatever the names of fields.
  lemma EntriesReserved(token: Token, ix: set<string>, k: string, fields: Fields)
    ensures forall x :: x in Entries(token, ix, k, fields) ==> !UserKey(x) && forall j :: x != ExpiryKey(j)
  {
    forall x, j | x in Entries(token, ix, k, fields) ensures !UserKey(x) && x != ExpiryKey(j) {
      var f :| f in ix && f in fields && Entry(token, f, fields, k) == x;
      KindsApart(f, token(fields[f]), k, j);
    }
  }

  lemma KeysReserved(k: string)
    ensures forall j :: !UserKey(ExpiryKey(j))
    ensures forall j :: j != k ==> ExpiryKey(j) != ExpiryKey(k)
  {
    forall j ensures !UserKey(ExpiryKey(j)) { KindsApart("", "", "", j); }
    forall j | ExpiryKey(j) == ExpiryKey(k) ensures j == k { ExpiryKeyInjective(j, k); }
  }

  // Where documents and deadlines are the same, so are the items.
  lemma SameItems(db: Store, d: Store, j: string)
    requires UserKey(j) ==> Same(db, d, j) && Same(db, d, ExpiryKey(j))
    ensures j in Items(db) <==> j in Items(d)
    ensures j in Items(db) ==> Items(db)[j] == Items(d)[j]
  {
  }

  lemma SetItems(token: Token, db: Store, ix: set<string>, k: string, fields: Fields, now: real, ttl: Option<real>)
    requires UserKey(k)
    ensures Items(SetDoc(token, db, ix, k, fields, Deadline(now, ttl)))
         == Items(db)[k := Item(fields, if ttl.None? then None else Some(now + ttl.value))]
  {
    hide SetDoc, UserKey, ExpiryKey, Entries;
    var d := SetDoc(token, db, ix, k, fields, Deadline(now, ttl));
    SetDocPointwise(token, db, ix, k, fields, Deadline(now, ttl));
    EntriesReserved(token, ix, k, fields);
    EntriesReserved(token, ix, k, FieldsOf(db, k));
    KeysReserved(k);
    forall j | j != k
      ensures j in Items(db) <==> j in Items(d)
      ensures j in Items(db) ==> Items(db)[j] == Items(d)[j]
    {
      SameItems(db, d, j);
    }
    assert Items(d)[k] == Item(fields, if ttl.None? then None else Some(now + ttl.value));
  }

  lemma DeleteItems(token: Token, db: Store, ix: set<string>, k: string)
    requires UserKey(k)
    ensures Items(DeleteDoc(token, db, ix, k)) == Items(db) - {k}
  {
    hide UserKey, ExpiryKey, Entries;
    var d := DeleteDoc(token, db, ix, k);
    EntriesReserved(token, ix, k, FieldsOf(db, k));
    KeysReserved(k);
    forall j | j != k
      ensures j in Items(db) <==> j in Items(d)
      ensures j in Items(db) ==> Items(db)[j] == Items(d)[j]
    {
      SameItems(db, d, j);
    }
  }

  lemma {:induction false} IndexItems(token: Token, db: Store, field: string, ks: seq<string>)
    ensures Items(Backfill(token, db, field, ks)) == Items(db)
    decreases |ks|
  {
    hide UserKey, ExpiryKey, Entries;
    if ks != [] {
      var k := ks[|ks| - 1];
      IndexItems(token, db, field, ks[..|ks| - 1]);
      EntriesReserved(token, {field}, k, FieldsOf(db, k));
    }
  }

  lemma {:induction false} SweepItems(token: Token, db: Store, ix: set<string>, ks: seq<string>)
    requires forall k :: k in ks ==> UserKey(k)
    ensures Items(Sweep(token, db, ix, ks)) == Items(db) - (set k | k in ks)
    decreases |ks|
  {
    hide DeleteDoc, UserKey, ExpiryKey;
    if ks != [] {
      var before, k := ks[..|ks| - 1], ks[|ks| - 1];
      assert forall j :: j in ks <==> j in before || j == k;
      SweepItems(token, db, ix, before);
      DeleteItems(token, Sweep(token, db, ix, before), ix, k);
    }
  }

  // Each operation does to the map what `Apply` says.
  lemma NextItems(token: Token, s: State, a: Action)
    requires Enabled(s, a)
    ensures Items(Next(token, s, a).db) == Apply(Items(s.db), a)
  {
    hide SetDoc, DeleteDoc, Backfill, Sweep;
    match a {
      case SetAct(now, k, fields, ttl) => SetItems(token, s.db, s.indexes, k, fields, now, ttl);
      case DeleteAct(_, k) => DeleteItems(token, s.db, s.indexes, k);
      case IndexAct(_, field, live) => IndexItems(token, s.db, field, live);
      case SweepAct(now, expired) => SweepItems(token, s.db, s.indexes, expired);
    }
  }

  /** What readers see: after any run, and at any time before or after the next operation, the
      documents of the plain map that were not past their deadline then. */
  lemma {:induction false} RunIsModel(token: Token, ix: set<string>, clock: real, actions: seq<Action>, t: real)
    requires Possible(token, Empty(ix, clock), actions)
    ensures Items(Run(token, Empty(ix, clock), actions).db) == Model(actions)
    ensures View(Run(token, Empty(ix, clock), actions).db, t) == Visible(Model(actions), t)
  {
    hide Next, Items, Visible, View, Enabled, Apply;
    if actions == [] {
      NoItems();
    } else {
      var n := |actions| - 1;
      var before := actions[..n];
      forall i | 0 <= i < n ensures Enabled(Run(token, Empty(ix, clock), before[..i]), before[i]) {
        assert before[..i] == actions[..i];
      }
      RunIsModel(token, ix, clock, before, t);
      NextItems(token, Run(token, Empty(ix, clock), before), actions[n]);
    }
    ViewIsVisible(Run(token, Empty(ix, clock), actions).db, t);
  }

  lemma NoItems()
    ensures Items(map[]) == map[]
  {
  }

  // A set is seen until its deadline and no longer, and hides nothing else, at any time.
  lemma SetIsSeen(token: Token, db: Store, ix: set<string>, k: string, fields: Fields, now: real, ttl: Option<real>,
                  t: real)
    requires UserKey(k)
    ensures View(SetDoc(token, db, ix, k, fields, Deadline(now, ttl)), t)
         == if ttl.None? || t < now + ttl.value then View(db, t)[k := fields] else View(db, t) - {k}
  {
    hide SetDoc, UserKey;
    SetItems(token, db, ix, k, fields, now, ttl);
    ViewIsVisible(db, t);
    ViewIsVisible(SetDoc(token, db, ix, k, fields, Deadline(now, ttl)), t);
    hide Items, View;
  }

  // A deleted document is seen no more, at any time, and nothing else is hidden.
  lemma DeleteIsSeen(token: Token, db: Store, ix: set<string>, k: string, t: real)
    requires UserKey(k)
    ensures View(DeleteDoc(token, db, ix, k), t) == View(db, t) - {k}
  {
    hide DeleteDoc, UserKey;
    DeleteItems(token, db, ix, k);
    ViewIsVisible(db, t);
    ViewIsVisible(DeleteDoc(token, db, ix, k), t);
    hide Items, View;
  }

  // Creating an index changes nothing that is seen, at any time.
  lemma IndexIsUnseen(token: Token, db: Store, field: string, ks: seq<string>, t: real)
    ensures View(Backfill(token, db, field, ks), t) == View(db, t)
  {
    IndexItems(token, db, field, ks);
    ViewIsVisible(db, t);
    ViewIsVisible(Backfill(token, db, field, ks), t);
  }

  // The names things are stored under: a document under its key, the entry of an indexed field
  // under the field, the value's token and the key, and a deadline under the key.
  lemma StoredNames(token: Token, k: string, field: string, v: Json, now: real, ttl: real)
    requires UserKey(k)
    ensures SetDoc(token, map[], {field}, k, map[field := v], Deadline(now, Some(ttl)))
         == map[k := Doc(map[field := v]), "\0idx\0" + field + "\0" + token(v) + "\0" + k := Ref(k),
              "\0exp\0" + k := Expiry(now + ttl)]
  {
    var fields := map[field := v];
    KindsApart(field, token(v), k, k);
    assert Entries(token, {field}, k, fields) == {Entry(token, field, fields, k)};
  }

  // ----- what a query returns -----

  // The document has each value asked for and passes the filter. A field it lacks counts as null,
  // but not if it is indexed: the index has no entry for it.
  predicate Wanted(token: Token, q: Query, ix: set<string>, d: Fields) {
    && (forall i :: 0 <= i < |q.equals| ==>
          var (f, v) := q.equals[i];
          if f in d then token(d[f]) == token(v) else f !in ix && token(v) == token(Null))
    && q.filter(d)
  }

  // A query returns exactly the visible documents it wants.
  lemma FoundIffWanted(token: Token, db: Store, ix: set<string>, q: Query, now: real, k: string)
    requires Inv(token, db, ix, now)
    ensures k in (if UsesIndex(q, ix) then ByIndex(token, db, ix, q, now) else ByScan(token, db, q, now)) <==>
            k in View(db, now) && Wanted(token, q, ix, View(db, now)[k])
  {
    hide Inv, UserKey, ByIndex;
    if UsesIndex(q, ix) {
      IndexFinds(token, db, ix, q, now, k);
    }
    if k in db && UserKey(k) {
      UserDoc(token, db, ix, now, k);
    }
    WantedIff(token, q, ix, FieldsOf(db, k));
  }

  lemma WantedIff(token: Token, q: Query, ix: set<string>, d: Fields)
    ensures Wanted(token, q, ix, d) <==> Matches(token, q, d) && Carries(d, ix, q)
  {
    if Wanted(token, q, ix, d) {
      forall i | 0 <= i < |q.equals|
        ensures token(Field(d, q.equals[i].0)) == token(q.equals[i].1)
        ensures q.equals[i].0 in ix ==> q.equals[i].0 in d
      {
        var (f, v) := q.equals[i];
      }
    }
  }
}
