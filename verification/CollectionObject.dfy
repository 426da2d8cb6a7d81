/** The collection object (`imustore/collection.py`): loops over the indexed fields, the stored keys
    and the candidates, proved to do what `CollectionSpec` and `CollectionQuery` say. `db` is the
    committed map; each method builds the transaction's map and publishes it at the end. */
module CollectionObject {
  import opened Prelude
  import opened KeyOrder
  import opened IndexKeys
  import opened CollectionSpec
  import opened CollectionQuery
  import opened CollectionModel

  class Collection {
    const token: Token
    var db: Store
    var indexes: set<string>

    constructor (token: Token, db: Store, indexes: set<string>)
      ensures this.token == token && this.db == db && this.indexes == indexes
    {
      this.token, this.db, this.indexes := token, db, indexes;
    }

    // The first result is false for the ValueError of a key that is empty or reserved.
    method Get(key: string, now: real) returns (ok: bool, r: Option<Fields>)
      ensures ok <==> UserKey(key)
      ensures r == if key in View(db, now) then Some(View(db, now)[key]) else None
    {
      if !UserKey(key) {
        return false, None;
      }
      if key !in db || !db[key].Doc? || Expired(db, key, now) {
        return true, None;
      }
      return true, Some(db[key].fields);
    }

    method Unindex(tx: Store, key: string, fields: Fields) returns (r: Store)
      ensures r == tx - Entries(token, indexes, key, fields)
    {
      hide Entries, Entry;
      r := tx;
      var rest := indexes;
      NoEntries(token, tx, key, fields);
      assert indexes - rest == {};
      while rest != {}
        invariant rest <= indexes && r == tx - Entries(token, indexes - rest, key, fields)
        decreases |rest|
      {
        var f :| f in rest;
        OneLess(token, tx, indexes - rest, f, key, fields);
        assert indexes - (rest - {f}) == (indexes - rest) + {f};
        if f in fields {
          r := r - {Entry(token, f, fields, key)};
        }
        rest := rest - {f};
      }
      assert indexes - rest == indexes;
    }

    method Index(tx: Store, key: string, fields: Fields) returns (r: Store)
      ensures r == Put(tx, Entries(token, indexes, key, fields), key)
    {
      hide Entries, Entry, Put;
      r := tx;
      var rest := indexes;
      NoEntries(token, tx, key, fields);
      assert indexes - rest == {};
      while rest != {}
        invariant rest <= indexes && r == Put(tx, Entries(token, indexes - rest, key, fields), key)
        decreases |rest|
      {
        var f :| f in rest;
        OneMore(token, tx, indexes - rest, f, key, fields);
        assert indexes - (rest - {f}) == (indexes - rest) + {f};
        if f in fields {
          r := r[Entry(token, f, fields, key) := Ref(key)];
        }
        rest := rest - {f};
      }
      assert indexes - rest == indexes;
    }

    // False is the ValueError of a key that is empty or reserved.
    method Set(key: string, fields: Fields, ttl: Option<real>, now: real) returns (ok: bool)
      modifies `db
      ensures ok <==> UserKey(key)
      ensures db == if ok then SetDoc(token, old(db), indexes, key, fields, Deadline(now, ttl)) else old(db)
      ensures ok ==>
                forall t :: View(db, t) ==
                  if ttl.None? || t < now + ttl.value then View(old(db), t)[key := fields] else View(old(db), t) - {key}
    {
      if !UserKey(key) {
        return false;
      }
      var tx := Unindex(db, key, FieldsOf(db, key));
      tx := tx[key := Doc(fields)];
      tx := Index(tx, key, fields);
      if ttl.Some? {
        tx := tx[ExpiryKey(key) := Expiry(now + ttl.value)];
      } else {
        tx := tx - {ExpiryKey(key)};
      }
      forall t {
        SetIsSeen(token, db, indexes, key, fields, now, ttl, t);
      }
      db := tx;
      return true;
    }

    // False is ValueError or the KeyError of a key that is not there.
    method Delete(key: string) returns (ok: bool)
      modifies `db
      ensures ok <==> UserKey(key) && key in old(db)
      ensures db == if ok then DeleteDoc(token, old(db), indexes, key) else old(db)
      ensures ok ==> forall t :: View(db, t) == View(old(db), t) - {key}
    {
      hide View;
      if !UserKey(key) || key !in db {
        return false;
      }
      forall t {
        DeleteIsSeen(token, db, indexes, key, t);
      }
      var tx := Unindex(db, key, FieldsOf(db, key));
      db := tx - {key} - {ExpiryKey(key)};
      return true;
    }

    method CreateIndex(field: string, now: real) returns (ghost keys: seq<string>)
      modifies this
      ensures Lists(keys, View(old(db), now).Keys)
      ensures db == Backfill(token, old(db), field, keys) && indexes == old(indexes) + {field}
      ensures forall t :: View(db, t) == View(old(db), t)
    {
      hide Entries, Entry, Put, FieldsOf, View, Lists;
      var ks := Sort(View(db, now).Keys);
      keys := ks;
      var tx := db;
      for i := 0 to |ks|
        invariant db == old(db) && indexes == old(indexes) && tx == Backfill(token, db, field, ks[..i])
      {
        assert ks[..i + 1][..i] == ks[..i];
        var fields := FieldsOf(db, ks[i]);
        OneMore(token, tx, {}, field, ks[i], fields);
        NoEntries(token, tx, ks[i], fields);
        assert {} + {field} == {field};
        if field in fields {
          tx := tx[Entry(token, field, fields, ks[i]) := Ref(ks[i])];
        }
      }
      assert ks[..|ks|] == ks;
      forall t {
        IndexIsUnseen(token, db, field, ks, t);
      }
      db := tx;
      indexes := indexes + {field};
    }

    // The keys whose time has come, from the reserved keys that hold the times.
    method Sweep(now: real) returns (count: nat, ghost keys: seq<string>)
      modifies `db
      ensures count == |keys| && Lists(keys, Due(old(db), now))
      ensures (forall k :: k in keys ==> UserKey(k)) ==> db == CollectionSpec.Sweep(token, old(db), indexes, keys)
      ensures Inv(token, old(db), indexes, now) ==> Items(db) == Apply(Items(old(db)), SweepAct(now, keys))
    {
      var ks := Sort(Due(db, now));
      keys := ks;
      for i := 0 to |ks|
        invariant (forall k :: k in ks ==> UserKey(k)) ==> db == CollectionSpec.Sweep(token, old(db), indexes, ks[..i])
      {
        assert ks[..i + 1][..i] == ks[..i] && ks[i] in ks;
        var _ := Delete(ks[i]);
      }
      assert ks[..|ks|] == ks;
      if Inv(token, old(db), indexes, now) {
        SweptItems(token, old(db), indexes, now, ks);
      }
      count := |ks|;
    }

    // The matching documents in key order, by the indexes if one can be used.
    method All(q: Query, now: real) returns (r: seq<(string, Fields)>)
      ensures Lists(Firsts(r),
                    if UsesIndex(q, indexes) then ByIndex(token, db, indexes, q, now) else ByScan(token, db, q, now))
      ensures forall i :: 0 <= i < |r| ==> r[i].1 == FieldsOf(db, r[i].0)
      ensures Inv(token, db, indexes, now) ==>
                forall k, d :: (k, d) in r <==>
                  k in View(db, now) && d == View(db, now)[k] && Wanted(token, q, indexes, d)
    {
      var pool := if UsesIndex(q, indexes) then Candidates(token, db, indexes, q) else set k | k in db && UserKey(k);
      var ks := Sort(pool);
      r := Pick(ks, q, now);
      if Inv(token, db, indexes, now) {
        PickedAreWanted(token, db, indexes, q, now, r);
      }
    }

    // Of the candidates, in their order, those that are there, in time and as asked.
    method Pick(ks: seq<string>, q: Query, now: real) returns (r: seq<(string, Fields)>)
      requires Ascending(ks)
      ensures forall i :: 0 <= i < |r| ==> r[i].1 == FieldsOf(db, r[i].0)
      ensures forall k :: k in Firsts(r) <==> k in ks && Returned(token, db, q, now, k)
      ensures Ascending(Firsts(r))
    {
      r := [];
      for i := 0 to |ks|
        invariant forall j :: 0 <= j < |r| ==> r[j].1 == FieldsOf(db, r[j].0)
        invariant forall k :: k in Firsts(r) <==> k in ks[..i] && Returned(token, db, q, now, k)
        invariant Ascending(Firsts(r))
      {
        var k := ks[i];
        assert ks[..i + 1] == ks[..i] + [k];
        if Returned(token, db, q, now, k) {
          FirstsSnoc(r, (k, FieldsOf(db, k)));
          forall j | 0 <= j < |r| ensures Less(Firsts(r)[j], k) {
            assert Firsts(r)[j] in ks[..i];
          }
          r := r + [(k, FieldsOf(db, k))];
        }
      }
      assert ks[..|ks|] == ks;
    }
  }

  predicate Returned(token: Token, db: Store, q: Query, now: real, k: string) {
    k in db && !Expired(db, k, now) && Matches(token, q, FieldsOf(db, k))
  }

  lemma PickedAreWanted(token: Token, db: Store, ix: set<string>, q: Query, now: real, r: seq<(string, Fields)>)
    requires Inv(token, db, ix, now) && forall i :: 0 <= i < |r| ==> r[i].1 == FieldsOf(db, r[i].0)
    requires Lists(Firsts(r), if UsesIndex(q, ix) then ByIndex(token, db, ix, q, now) else ByScan(token, db, q, now))
    ensures forall k, d :: (k, d) in r <==>
              k in View(db, now) && d == View(db, now)[k] && Wanted(token, q, ix, d)
  {
    hide Inv, ByIndex, ByScan, UsesIndex, Wanted;
    forall k, d ensures (k, d) in r <==> k in View(db, now) && d == View(db, now)[k] && Wanted(token, q, ix, d) {
      FoundIffWanted(token, db, ix, q, now, k);
      if (k, d) in r {
        var i :| 0 <= i < |r| && r[i] == (k, d);
        assert Firsts(r)[i] in Firsts(r);
      }
      if k in Firsts(r) {
        var i :| 0 <= i < |r| && Firsts(r)[i] == k;
        assert r[i] == (k, FieldsOf(db, k));
      }
    }
  }

  function Due(db: Store, now: real): set<string> {
    set x | x in db && EXPIRY_PREFIX <= x && db[x].Expiry? && now >= db[x].at :: x[|EXPIRY_PREFIX|..]
  }

  function Firsts(r: seq<(string, Fields)>): (ks: seq<string>)
    ensures |ks| == |r| && forall i :: 0 <= i < |r| ==> ks[i] == r[i].0
  {
    seq(|r|, i requires 0 <= i < |r| => r[i].0)
  }

  lemma FirstsSnoc(r: seq<(string, Fields)>, x: (string, Fields))
    ensures Firsts(r + [x]) == Firsts(r) + [x.0]
  {
  }

  lemma EntriesGrow(token: Token, ix: set<string>, f: string, k: string, fields: Fields)
    ensures Entries(token, ix + {f}, k, fields) ==
            Entries(token, ix, k, fields) + if f in fields then {Entry(token, f, fields, k)} else {}
  {
  }

  lemma NoEntries(token: Token, tx: Store, k: string, fields: Fields)
    ensures tx - Entries(token, {}, k, fields) == tx && Put(tx, Entries(token, {}, k, fields), k) == tx
  {
    assert Entries(token, {}, k, fields) == {};
  }

  lemma OneLess(token: Token, tx: Store, ix: set<string>, f: string, k: string, fields: Fields)
    ensures var d := tx - Entries(token, ix, k, fields);
            tx - Entries(token, ix + {f}, k, fields) == if f in fields then d - {Entry(token, f, fields, k)} else d
  {
    EntriesGrow(token, ix, f, k, fields);
    hide Entries, Entry;
  }

  lemma OneMore(token: Token, tx: Store, ix: set<string>, f: string, k: string, fields: Fields)
    ensures var d := Put(tx, Entries(token, ix, k, fields), k);
            Put(tx, Entries(token, ix + {f}, k, fields), k) ==
            if f in fields then d[Entry(token, f, fields, k) := Ref(k)] else d
  {
    EntriesGrow(token, ix, f, k, fields);
    hide Entries, Entry;
  }

  // The keys that are due are the documents that have expired.
  lemma DueAreExpired(token: Token, db: Store, ix: set<string>, now: real, k: string)
    requires Inv(token, db, ix, now)
    ensures k in Due(db, now) <==> UserKey(k) && Expired(db, k, now)
  {
    hide Complete;
    var x := ExpiryKey(k);
    assert x[|EXPIRY_PREFIX|..] == k;
    assert forall y: string :: EXPIRY_PREFIX <= y && y[|EXPIRY_PREFIX|..] == k ==> y == x;
  }

  lemma SweptItems(token: Token, db: Store, ix: set<string>, now: real, ks: seq<string>)
    requires Inv(token, db, ix, now) && Lists(ks, Due(db, now))
    ensures forall k :: k in ks ==> UserKey(k)
    ensures Items(CollectionSpec.Sweep(token, db, ix, ks)) == Apply(Items(db), SweepAct(now, ks))
  {
    hide Inv, Items, Apply, Due, CollectionSpec.Sweep;
    forall k ensures k in ks <==> UserKey(k) && Expired(db, k, now) {
      DueAreExpired(token, db, ix, now, k);
    }
    NextItems(token, State(db, ix, now), SweepAct(now, ks));
  }

  method Sort(s: set<string>) returns (ks: seq<string>)
    ensures Lists(ks, s)
  {
    ks := [];
    var rest := s;
    while rest != {}
      invariant rest <= s && Lists(ks, s - rest)
      decreases |rest|
    {
      var k :| k in rest;
      assert k !in ks;
      ks := Insert(ks, s - rest, k);
      assert s - (rest - {k}) == s - rest + {k};
      rest := rest - {k};
    }
    assert s - rest == s;
  }

  method Insert(ks: seq<string>, ghost s: set<string>, k: string) returns (r: seq<string>)
    requires Lists(ks, s) && k !in s
    ensures Lists(r, s + {k})
  {
    var i := 0;
    while i < |ks| && Less(ks[i], k)
      invariant i <= |ks| && forall j :: 0 <= j < i ==> Less(ks[j], k)
    {
      i := i + 1;
    }
    r := ks[..i] + [k] + ks[i..];
    forall j | i <= j < |ks| ensures Less(k, ks[j]) {
      assert ks[i] in ks;
      Trichotomy(ks[i], k);
      if i < j { LessTransitive(k, ks[i], ks[j]); }
    }
    assert ks == ks[..i] + ks[i..];
  }
}
