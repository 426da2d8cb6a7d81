/** Queries (`Query` in `imustore/collection.py`): by intersecting index scans and by scanning every
    document, and exactly when the two agree. */
module CollectionQuery {
  import opened Prelude
  import opened IndexKeys
  import opened CollectionSpec

  // Equalities, and the conjunction of the other filters.
  datatype Query = Query(equals: seq<(string, Json)>, filter: Fields -> bool)

  function Field(fields: Fields, f: string): Json {
    if f in fields then fields[f] else Null
  }

  predicate Matches(token: Token, q: Query, fields: Fields) {
    && (forall i :: 0 <= i < |q.equals| ==> token(Field(fields, q.equals[i].0)) == token(q.equals[i].1))
    && q.filter(fields)
  }

  predicate UsesIndex(q: Query, ix: set<string>) {
    exists i :: 0 <= i < |q.equals| && q.equals[i].0 in ix
  }

  // The documents named by the entries of a field and a value.
  function ScanHits(db: Store, prefix: string): set<string> {
    set x | x in db && prefix <= x && db[x].Ref? :: db[x].pk
  }

  function Named(db: Store): set<string> {
    set x | x in db && db[x].Ref? :: db[x].pk
  }

  // What the indexes leave of the documents: the intersection of the scans.
  function Candidates(token: Token, db: Store, ix: set<string>, q: Query): set<string> {
    set k | k in Named(db) &&
            forall i :: 0 <= i < |q.equals| && q.equals[i].0 in ix ==>
                          k in ScanHits(db, ScanPrefix(q.equals[i].0, token(q.equals[i].1)))
  }

  // The keys a query returns, through the indexes and without them.
  function ByIndex(token: Token, db: Store, ix: set<string>, q: Query, now: real): set<string> {
    set k | k in Candidates(token, db, ix, q) && k in db && !Expired(db, k, now) && Matches(token, q, FieldsOf(db, k))
  }

  function ByScan(token: Token, db: Store, q: Query, now: real): set<string> {
    set k | k in db && UserKey(k) && !Expired(db, k, now) && Matches(token, q, FieldsOf(db, k))
  }

  // ----- when they agree -----

  predicate Carries(fields: Fields, ix: set<string>, q: Query) {
    forall i :: 0 <= i < |q.equals| && q.equals[i].0 in ix ==> q.equals[i].0 in fields
  }

  // An entry found by a scan names a document that has the field, with the value asked for.
  lemma HitCarries(token: Token, db: Store, ix: set<string>, now: real, f: string, v: Json, k: string)
    requires Inv(token, db, ix, now) && f in ix && k in ScanHits(db, ScanPrefix(f, token(v)))
    ensures UserKey(k) && k in db && f in FieldsOf(db, k)
  {
    hide Sound, Complete, UserKey, ScanPrefix;
    var x :| x in db && ScanPrefix(f, token(v)) <= x && db[x].Ref? && db[x].pk == k;
    HitIsEntry(token, db, ix, now, f, v, x);
  }

  // A live document that has the field, with the value asked for, is found.
  lemma CarrierHit(token: Token, db: Store, ix: set<string>, now: real, f: string, v: Json, k: string)
    requires Inv(token, db, ix, now) && f in ix && Live(db, k, now) && f in FieldsOf(db, k)
    requires token(FieldsOf(db, k)[f]) == token(v)
    ensures k in ScanHits(db, ScanPrefix(f, token(v))) && k in Named(db)
  {
    hide Sound;
    var e := Entry(token, f, FieldsOf(db, k), k);
    assert e in db && db[e] == Ref(k);
    ScanFinds(f, token(v), f, token(v), k);
  }

  // The keys found through the indexes are those a scan finds that have every indexed field asked for.
  lemma IndexFinds(token: Token, db: Store, ix: set<string>, q: Query, now: real, k: string)
    requires Inv(token, db, ix, now) && UsesIndex(q, ix)
    ensures k in ByIndex(token, db, ix, q, now) <==> k in ByScan(token, db, q, now) && Carries(FieldsOf(db, k), ix, q)
  {
    hide Inv, ScanPrefix, ScanHits, UserKey;
    var n :| 0 <= n < |q.equals| && q.equals[n].0 in ix;
    if k in ByIndex(token, db, ix, q, now) {
      forall i | 0 <= i < |q.equals| && q.equals[i].0 in ix ensures q.equals[i].0 in FieldsOf(db, k) && UserKey(k) {
        HitCarries(token, db, ix, now, q.equals[i].0, q.equals[i].1, k);
      }
    }
    if k in ByScan(token, db, q, now) && Carries(FieldsOf(db, k), ix, q) {
      assert Live(db, k, now) by { UserDoc(token, db, ix, now, k); }
      forall i | 0 <= i < |q.equals| && q.equals[i].0 in ix
        ensures k in ScanHits(db, ScanPrefix(q.equals[i].0, token(q.equals[i].1))) && k in Named(db)
      {
        CarrierHit(token, db, ix, now, q.equals[i].0, q.equals[i].1, k);
      }
      assert k in Named(db);
    }
  }

  lemma UserDoc(token: Token, db: Store, ix: set<string>, now: real, k: string)
    requires Inv(token, db, ix, now) && k in db && UserKey(k)
    ensures db[k].Doc?
  {
    hide Complete;
  }

  /** An index changes a query's ordered result exactly when some live document matches without
      having an indexed field the query asks for, which can only be a field asked to be null. */
  lemma IndexIsTransparentIff(token: Token, db: Store, ix: set<string>, q: Query, now: real, xs: seq<string>,
                              ys: seq<string>)
    requires Inv(token, db, ix, now) && UsesIndex(q, ix)
    requires Lists(xs, ByIndex(token, db, ix, q, now)) && Lists(ys, ByScan(token, db, q, now))
    ensures xs == ys <==> forall k :: k in ByScan(token, db, q, now) ==> Carries(FieldsOf(db, k), ix, q)
    ensures !AsksNull(token, ix, q) ==> xs == ys
  {
    hide Inv, ByIndex, ByScan, Carries, Ascending;
    forall k
      ensures k in ByIndex(token, db, ix, q, now) <==> k in ByScan(token, db, q, now) && Carries(FieldsOf(db, k), ix, q)
    {
      IndexFinds(token, db, ix, q, now, k);
    }
    if forall k :: k in ByScan(token, db, q, now) ==> Carries(FieldsOf(db, k), ix, q) {
      assert ByIndex(token, db, ix, q, now) == ByScan(token, db, q, now);
      OneListing(xs, ys, ByScan(token, db, q, now));
    }
    if forall i :: 0 <= i < |q.equals| && q.equals[i].0 in ix ==> token(q.equals[i].1) != token(Null) {
      forall k | k in ByScan(token, db, q, now) ensures Carries(FieldsOf(db, k), ix, q) {
        NotNullCarries(token, db, ix, q, now, k);
      }
    }
  }

  lemma NotNullCarries(token: Token, db: Store, ix: set<string>, q: Query, now: real, k: string)
    requires k in ByScan(token, db, q, now)
    requires forall i :: 0 <= i < |q.equals| && q.equals[i].0 in ix ==> token(q.equals[i].1) != token(Null)
    ensures Carries(FieldsOf(db, k), ix, q)
  {
  }

  // ----- opening a collection over documents that are there -----

  // A collection can be opened with other indexes than those its documents were stored under, and
  // opening writes no entries. These are the documents the entries of a declared index miss.
  ghost predicate Missed(token: Token, db: Store, ix: set<string>, declared: set<string>, now: real, k: string,
                         f: string) {
    && Live(db, k, now) && f in declared && f !in ix
    && f in FieldsOf(db, k) && token(FieldsOf(db, k)[f]) != token(Null)
  }

  predicate AsksNull(token: Token, ix: set<string>, q: Query) {
    exists i :: 0 <= i < |q.equals| && q.equals[i].0 in ix && token(q.equals[i].1) == token(Null)
  }

  // There are no entries of a field that was not indexed.
  lemma NoHits(token: Token, db: Store, ix: set<string>, now: real, f: string, v: Json)
    requires Inv(token, db, ix, now) && Plain(f) && f !in ix
    ensures ScanHits(db, ScanPrefix(f, token(v))) == {}
  {
    hide Complete;
    forall x | x in db && ScanPrefix(f, token(v)) <= x && db[x].Ref? ensures false {
      HitIsEntry(token, db, ix, now, f, v, x);
    }
  }

  // What a scan for a field and a value meets is an entry of that field.
  lemma HitIsEntry(token: Token, db: Store, ix: set<string>, now: real, f: string, v: Json, x: string)
    requires Inv(token, db, ix, now) && Plain(f) && x in db && ScanPrefix(f, token(v)) <= x && db[x].Ref?
    ensures f in ix && UserKey(db[x].pk) && db[x].pk in db && f in FieldsOf(db, db[x].pk)
  {
    hide Complete;
    assert !UserKey(x) by { assert ScanPrefix(f, token(v))[0] == '\0'; }
    assert EntryOK(token, db, ix, x);
    var g, j :| && g in ix && UserKey(j) && j in db && g in FieldsOf(db, j)
                && x == Entry(token, g, FieldsOf(db, j), j) && x in db && db[x] == Ref(j);
    ScanFinds(f, token(v), g, token(FieldsOf(db, j)[g]), j);
  }

  // Where nothing is missed, index and scan find the same keys.
  lemma OpenedFinds(token: Token, db: Store, ix: set<string>, declared: set<string>, q: Query, now: real, k: string)
    requires Inv(token, db, ix, now) && (forall f :: f in declared ==> Plain(f))
    requires UsesIndex(q, declared) && !AsksNull(token, declared, q)
    requires forall f :: !Missed(token, db, ix, declared, now, k, f)
    ensures k in ByIndex(token, db, declared, q, now) <==> k in ByScan(token, db, q, now)
  {
    hide Inv, ScanPrefix, ScanHits, UserKey;
    var n :| 0 <= n < |q.equals| && q.equals[n].0 in declared;
    if k in ByIndex(token, db, declared, q, now) {
      if q.equals[n].0 in ix {
        HitCarries(token, db, ix, now, q.equals[n].0, q.equals[n].1, k);
      } else {
        NoHits(token, db, ix, now, q.equals[n].0, q.equals[n].1);
      }
    }
    if k in ByScan(token, db, q, now) {
      assert Live(db, k, now) by { UserDoc(token, db, ix, now, k); }
      forall i | 0 <= i < |q.equals| && q.equals[i].0 in declared
        ensures k in ScanHits(db, ScanPrefix(q.equals[i].0, token(q.equals[i].1))) && k in Named(db)
      {
        assert !Missed(token, db, ix, declared, now, k, q.equals[i].0);
        CarrierHit(token, db, ix, now, q.equals[i].0, q.equals[i].1, k);
      }
      assert k in Named(db);
    }
  }

  // A missed document is found by the scan for its value and not by the index.
  lemma MissedDiffers(token: Token, db: Store, ix: set<string>, declared: set<string>, now: real, k: string, f: string)
    requires Inv(token, db, ix, now) && Plain(f) && Missed(token, db, ix, declared, now, k, f)
    ensures var q := Query([(f, FieldsOf(db, k)[f])], (_: Fields) => true);
            && UsesIndex(q, declared) && !AsksNull(token, declared, q)
            && k in ByScan(token, db, q, now) && k !in ByIndex(token, db, declared, q, now)
  {
    hide Inv, ScanPrefix, ScanHits, UserKey;
    var v := FieldsOf(db, k)[f];
    var q := Query([(f, v)], (_: Fields) => true);
    assert q.equals[0].0 in declared;
    NoHits(token, db, ix, now, f, v);
  }

  /** Opening over stored documents: with the declared indexes every query that asks none of them to
      be null gives what a scan gives, if and only if no live document has a value in a declared
      field that was not indexed when it was stored. */
  lemma OpeningIsTransparentIff(token: Token, db: Store, ix: set<string>, declared: set<string>, now: real)
    requires Inv(token, db, ix, now) && (forall f :: f in declared ==> Plain(f))
    ensures (forall q :: UsesIndex(q, declared) && !AsksNull(token, declared, q) ==>
                           ByIndex(token, db, declared, q, now) == ByScan(token, db, q, now))
       <==> (forall k, f :: !Missed(token, db, ix, declared, now, k, f))
  {
    hide Inv, ByIndex, ByScan, UsesIndex, AsksNull;
    if forall k, f :: !Missed(token, db, ix, declared, now, k, f) {
      forall q | UsesIndex(q, declared) && !AsksNull(token, declared, q)
        ensures ByIndex(token, db, declared, q, now) == ByScan(token, db, q, now)
      {
        forall k ensures k in ByIndex(token, db, declared, q, now) <==> k in ByScan(token, db, q, now) {
          OpenedFinds(token, db, ix, declared, q, now, k);
        }
      }
    } else {
      var k, f :| Missed(token, db, ix, declared, now, k, f);
      MissedDiffers(token, db, ix, declared, now, k, f);
    }
  }

  // ----- runs -----

  datatype State = State(db: Store, indexes: set<string>, clock: real)

  // Each action at its time; the lists are those `keys()` and the scan for expiry times give.
  datatype Action =
    | SetAct(now: real, key: string, fields: Fields, ttl: Option<real>)
    | DeleteAct(now: real, key: string)
    | IndexAct(now: real, field: string, live: seq<string>)
    | SweepAct(now: real, expired: seq<string>)

  ghost predicate Enabled(s: State, a: Action) {
    && s.clock <= a.now
    && match a
       case SetAct(_, k, _, _) => UserKey(k)
       case DeleteAct(_, k) => UserKey(k) && k in s.db
       case IndexAct(now, field, live) => Plain(field) && forall k :: k in live <==> Live(s.db, k, now)
       case SweepAct(now, expired) => forall k :: k in expired <==> UserKey(k) && Expired(s.db, k, now)
  }

  function Next(token: Token, s: State, a: Action): State {
    match a
    case SetAct(now, k, fields, ttl) =>
      State(SetDoc(token, s.db, s.indexes, k, fields, Deadline(now, ttl)), s.indexes, now)
    case DeleteAct(now, k) => State(DeleteDoc(token, s.db, s.indexes, k), s.indexes, now)
    case IndexAct(now, field, live) => State(Backfill(token, s.db, field, live), s.indexes + {field}, now)
    case SweepAct(now, expired) => State(Sweep(token, s.db, s.indexes, expired), s.indexes, now)
  }

  function Run(token: Token, start: State, actions: seq<Action>): State {
    if actions == [] then start
    else Next(token, Run(token, start, actions[..|actions| - 1]), actions[|actions| - 1])
  }

  ghost predicate Possible(token: Token, start: State, actions: seq<Action>) {
    forall i :: 0 <= i < |actions| ==> Enabled(Run(token, start, actions[..i]), actions[i])
  }

  // What readers see, said without entries or expiry keys: a map and nothing more.
  function Seen(v: map<string, Fields>, a: Action): map<string, Fields> {
    match a
    case SetAct(_, k, fields, ttl) => if ttl.Some? && ttl.value <= 0.0 then v - {k} else v[k := fields]
    case DeleteAct(_, k) => v - {k}
    case IndexAct(_, _, _) => v
    case SweepAct(_, _) => v
  }

  lemma NextOK(token: Token, s: State, a: Action)
    requires Inv(token, s.db, s.indexes, s.clock) && Enabled(s, a)
    ensures var n := Next(token, s, a);
            Inv(token, n.db, n.indexes, n.clock) && View(n.db, n.clock) == Seen(View(s.db, a.now), a)
  {
    hide Inv, SetDoc, DeleteDoc, Backfill, Sweep, UserKey;
    TimePasses(token, s.db, s.indexes, s.clock, a.now);
    match a {
      case SetAct(now, k, fields, ttl) =>
        SetDocOK(token, s.db, s.indexes, k, fields, Deadline(now, ttl), now);
      case DeleteAct(now, k) => DeleteDocOK(token, s.db, s.indexes, k, now);
      case IndexAct(now, field, live) => BackfillOK(token, s.db, s.indexes, field, live, now);
      case SweepAct(now, expired) => SweepOK(token, s.db, s.indexes, expired, now);
    }
  }

  function Empty(ix: set<string>, clock: real): State {
    State(map[], ix, clock)
  }

  lemma RunOne(token: Token, start: State, a: Action)
    ensures Run(token, start, [a]) == Next(token, start, a)
    ensures Possible(token, start, [a]) <==> Enabled(start, a)
  {
    hide Next, Enabled;
    assert [a][..0] == [];
    assert Run(token, start, [a]) == Next(token, Run(token, start, [a][..0]), a);
  }

  lemma {:induction false} RunOK(token: Token, ix: set<string>, clock: real, actions: seq<Action>)
    requires PlainTokens(token) && (forall f :: f in ix ==> Plain(f)) && Possible(token, Empty(ix, clock), actions)
    ensures var s := Run(token, Empty(ix, clock), actions); Inv(token, s.db, s.indexes, s.clock)
  {
    if actions != [] {
      var n := |actions| - 1;
      var before := actions[..n];
      forall i | 0 <= i < n ensures Enabled(Run(token, Empty(ix, clock), before[..i]), before[i]) {
        assert before[..i] == actions[..i];
      }
      RunOK(token, ix, clock, before);
      NextOK(token, Run(token, Empty(ix, clock), before), actions[n]);
    }
  }

  /** Index transparency: after any mix of set, delete, create_index and sweep under a clock that does
      not run back, a query that asks no indexed field to be null gives the same ordered list with
      and without indexes. */
  lemma IndexIsTransparent(token: Token, ix: set<string>, clock: real, actions: seq<Action>, q: Query, now: real,
                           xs: seq<string>, ys: seq<string>)
    requires PlainTokens(token) && (forall f :: f in ix ==> Plain(f)) && Possible(token, Empty(ix, clock), actions)
    requires var s := Run(token, Empty(ix, clock), actions);
             && s.clock <= now && UsesIndex(q, s.indexes)
             && (forall i :: 0 <= i < |q.equals| && q.equals[i].0 in s.indexes ==> token(q.equals[i].1) != token(Null))
             && Lists(xs, ByIndex(token, s.db, s.indexes, q, now)) && Lists(ys, ByScan(token, s.db, q, now))
    ensures xs == ys
  {
    hide Inv, ByIndex, ByScan;
    var s := Run(token, Empty(ix, clock), actions);
    RunOK(token, ix, clock, actions);
    TimePasses(token, s.db, s.indexes, s.clock, now);
    IndexIsTransparentIff(token, s.db, s.indexes, q, now, xs, ys);
  }

  // ----- which queries an index can never change -----

  // After every run that ends with these indexes, index and scan give the same keys, and so the
  // same ordered list.
  ghost predicate Transparent(token: Token, ix: set<string>, clock: real, q: Query) {
    forall actions: seq<Action>, now: real ::
      Possible(token, Empty(ix, clock), actions) && Run(token, Empty(ix, clock), actions).indexes == ix
      && Run(token, Empty(ix, clock), actions).clock <= now ==>
        Agree(token, Run(token, Empty(ix, clock), actions), q, now)
  }

  ghost predicate Agree(token: Token, s: State, q: Query, now: real) {
    ByIndex(token, s.db, s.indexes, q, now) == ByScan(token, s.db, q, now)
  }

  // No document can match without having the indexed fields asked for.
  ghost predicate MatchesCarry(token: Token, ix: set<string>, q: Query) {
    forall fields :: Matches(token, q, fields) ==> Carries(fields, ix, q)
  }

  lemma AgreeIsSameList(token: Token, s: State, q: Query, now: real, xs: seq<string>, ys: seq<string>)
    requires Lists(xs, ByIndex(token, s.db, s.indexes, q, now)) && Lists(ys, ByScan(token, s.db, q, now))
    ensures Agree(token, s, q, now) <==> xs == ys
  {
    hide ByIndex, ByScan, Ascending;
    if Agree(token, s, q, now) {
      OneListing(xs, ys, ByScan(token, s.db, q, now));
    }
    if xs == ys {
      assert forall k :: k in ByIndex(token, s.db, s.indexes, q, now) <==> k in ByScan(token, s.db, q, now);
    }
  }

  // A document that matches without an indexed field asked for, stored alone, is found by the
  // scan and not by the index.
  lemma UncarriedDiffers(token: Token, ix: set<string>, clock: real, q: Query, fields: Fields, key: string)
    requires PlainTokens(token) && (forall f :: f in ix ==> Plain(f)) && UserKey(key) && UsesIndex(q, ix)
    requires Matches(token, q, fields) && !Carries(fields, ix, q)
    ensures var actions := [SetAct(clock, key, fields, None)];
            var s := Run(token, Empty(ix, clock), actions);
            && Possible(token, Empty(ix, clock), actions) && s.indexes == ix && s.clock == clock
            && key in ByScan(token, s.db, q, clock) && key !in ByIndex(token, s.db, ix, q, clock)
  {
    hide Matches, Carries, UsesIndex;
    var a := SetAct(clock, key, fields, None);
    var s := Run(token, Empty(ix, clock), [a]);
    assert Enabled(Empty(ix, clock), a);
    RunOne(token, Empty(ix, clock), a);
    SetDocParts(token, map[], ix, key, fields, None);
    RunOK(token, ix, clock, [a]);
    IndexFinds(token, s.db, ix, q, clock, key);
  }

  /** Which queries: index and scan agree after every run if and only if the query lets no document
      match without the indexed fields it asks for. */
  lemma TransparentIff(token: Token, ix: set<string>, clock: real, q: Query)
    requires PlainTokens(token) && (forall f :: f in ix ==> Plain(f)) && UsesIndex(q, ix)
    ensures Transparent(token, ix, clock, q) <==> MatchesCarry(token, ix, q)
  {
    hide Matches, Carries, UsesIndex, Possible;
    if MatchesCarry(token, ix, q) {
      forall actions: seq<Action>, now: real |
        && Possible(token, Empty(ix, clock), actions) && Run(token, Empty(ix, clock), actions).indexes == ix
        && Run(token, Empty(ix, clock), actions).clock <= now
        ensures Agree(token, Run(token, Empty(ix, clock), actions), q, now)
      {
        CarryingAgrees(token, ix, clock, actions, q, now);
      }
    } else {
      var fields :| Matches(token, q, fields) && !Carries(fields, ix, q);
      var key := "k";
      UncarriedDiffers(token, ix, clock, q, fields, key);
      var actions := [SetAct(clock, key, fields, None)];
      assert !Agree(token, Run(token, Empty(ix, clock), actions), q, clock);
    }
  }

  lemma CarryingAgrees(token: Token, ix: set<string>, clock: real, actions: seq<Action>, q: Query, now: real)
    requires PlainTokens(token) && (forall f :: f in ix ==> Plain(f)) && UsesIndex(q, ix) && MatchesCarry(token, ix, q)
    requires Possible(token, Empty(ix, clock), actions)
    requires Run(token, Empty(ix, clock), actions).indexes == ix && Run(token, Empty(ix, clock), actions).clock <= now
    ensures Agree(token, Run(token, Empty(ix, clock), actions), q, now)
  {
    hide Inv, Matches, Carries, UsesIndex, ByIndex, Run;
    var s := Run(token, Empty(ix, clock), actions);
    RunOK(token, ix, clock, actions);
    TimePasses(token, s.db, ix, s.clock, now);
    forall k ensures k in ByIndex(token, s.db, ix, q, now) <==> k in ByScan(token, s.db, q, now) {
      IndexFinds(token, s.db, ix, q, now, k);
    }
  }

  // ----- the condition read off the query -----

  // No field is asked to have two values.
  predicate Consistent(token: Token, equals: seq<(string, Json)>) {
    forall i, j :: 0 <= i < j < |equals| && equals[i].0 == equals[j].0 ==> token(equals[i].1) == token(equals[j].1)
  }

  // The document that has what is asked for.
  function Asked(equals: seq<(string, Json)>): Fields {
    if equals == [] then map[] else Asked(equals[1..])[equals[0].0 := equals[0].1]
  }

  lemma {:induction false} AskedHas(token: Token, equals: seq<(string, Json)>)
    requires Consistent(token, equals)
    ensures forall i :: 0 <= i < |equals| ==> token(Field(Asked(equals), equals[i].0)) == token(equals[i].1)
  {
    if equals != [] {
      var rest := equals[1..];
      assert forall i, j :: 0 <= i < j < |rest| ==> rest[i] == equals[i + 1] && rest[j] == equals[j + 1];
      AskedHas(token, rest);
      forall i | 0 <= i < |equals| ensures token(Field(Asked(equals), equals[i].0)) == token(equals[i].1) {
        if i > 0 { assert rest[i - 1] == equals[i]; }
      }
    }
  }

  /** For a query of equalities alone the condition is in the query's text: it asks some field for
      two values, and so finds nothing, or it asks no indexed field to be null. */
  lemma EqualityQueryIff(token: Token, ix: set<string>, clock: real, q: Query)
    requires PlainTokens(token) && (forall f :: f in ix ==> Plain(f)) && UsesIndex(q, ix)
    requires forall fields :: q.filter(fields)
    ensures Transparent(token, ix, clock, q) <==> !Consistent(token, q.equals) || !AsksNull(token, ix, q)
  {
    hide Transparent;
    TransparentIff(token, ix, clock, q);
    if Consistent(token, q.equals) && AsksNull(token, ix, q) {
      var n :| 0 <= n < |q.equals| && q.equals[n].0 in ix && token(q.equals[n].1) == token(Null);
      AskedHas(token, q.equals);
      var fields := Asked(q.equals) - {q.equals[n].0};
      forall i | 0 <= i < |q.equals| ensures token(Field(fields, q.equals[i].0)) == token(q.equals[i].1) {
        assert token(Field(Asked(q.equals), q.equals[n].0)) == token(Null);
      }
      assert Matches(token, q, fields) && !Carries(fields, ix, q);
    }
  }

  /** So null is not transparent: a document without the field is found by the scan alone. */
  lemma NullIsNotTransparent(token: Token, field: string, key: string, clock: real)
    requires PlainTokens(token) && Plain(field) && UserKey(key)
    ensures var s := Run(token, Empty({field}, clock), [SetAct(clock, key, map[], None)]);
            var q := Query([(field, Null)], (_: Fields) => true);
            && Possible(token, Empty({field}, clock), [SetAct(clock, key, map[], None)])
            && UsesIndex(q, s.indexes)
            && key in ByScan(token, s.db, q, clock) && key !in ByIndex(token, s.db, s.indexes, q, clock)
  {
    var q := Query([(field, Null)], (_: Fields) => true);
    assert q.equals[0].0 in {field};
    UncarriedDiffers(token, {field}, clock, q, map[], key);
  }
}
