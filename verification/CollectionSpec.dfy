/** Collections as maps (`imustore/collection.py`): what `set`, `delete`, `create_index` and `sweep`
    do to the database, what a reader sees of it, and the invariant that ties index entries to
    documents. Every operation is one transaction, so it is one step here. */
module CollectionSpec {
  import opened Prelude
  import opened IndexKeys

  // Field values matter only through their tokens, and null is the value of a missing field.
  datatype Json = Null | Value(text: string)

  type Fields = map<string, Json>

  datatype Stored = Doc(fields: Fields) | Ref(pk: string) | Expiry(at: real)

  type Store = map<string, Stored>

  // The canonical text of a value; a JSON text has no NUL in it.
  type Token = Json -> string

  ghost predicate PlainTokens(token: Token) {
    forall v :: Plain(token(v))
  }

  function FieldsOf(db: Store, k: string): Fields {
    if k in db && db[k].Doc? then db[k].fields else map[]
  }

  predicate Expired(db: Store, k: string, now: real) {
    ExpiryKey(k) in db && db[ExpiryKey(k)].Expiry? && now >= db[ExpiryKey(k)].at
  }

  // What a reader can get at.
  predicate Live(db: Store, k: string, now: real) {
    UserKey(k) && k in db && db[k].Doc? && !Expired(db, k, now)
  }

  function View(db: Store, now: real): map<string, Fields> {
    map k | k in db && Live(db, k, now) :: db[k].fields
  }

  // ----- the operations -----

  function Entry(token: Token, f: string, fields: Fields, k: string): string
    requires f in fields
  {
    IndexKey(f, token(fields[f]), k)
  }

  function Entries(token: Token, ix: set<string>, k: string, fields: Fields): set<string> {
    set f | f in ix && f in fields :: Entry(token, f, fields, k)
  }

  function Put(db: Store, entries: set<string>, k: string): Store {
    db + map e | e in entries :: Ref(k)
  }

  function SetDoc(token: Token, db: Store, ix: set<string>, k: string, fields: Fields, expiry: Option<real>): Store {
    var cleared := db - Entries(token, ix, k, FieldsOf(db, k));
    var filled := Put(cleared[k := Doc(fields)], Entries(token, ix, k, fields), k);
    if expiry.Some? then filled[ExpiryKey(k) := Expiry(expiry.value)] else filled - {ExpiryKey(k)}
  }

  // When a document set now is to expire.
  function Deadline(now: real, ttl: Option<real>): Option<real> {
    if ttl.Some? then Some(now + ttl.value) else None
  }

  function DeleteDoc(token: Token, db: Store, ix: set<string>, k: string): Store {
    db - Entries(token, ix, k, FieldsOf(db, k)) - {k} - {ExpiryKey(k)}
  }

  // Entries of one more field, for the documents listed.
  function Backfill(token: Token, db: Store, field: string, ks: seq<string>): Store {
    if ks == [] then db
    else
      var d, k := Backfill(token, db, field, ks[..|ks| - 1]), ks[|ks| - 1];
      Put(d, Entries(token, {field}, k, FieldsOf(db, k)), k)
  }

  function Sweep(token: Token, db: Store, ix: set<string>, ks: seq<string>): Store {
    if ks == [] then db
    else
      var d, k := Sweep(token, db, ix, ks[..|ks| - 1]), ks[|ks| - 1];
      if k in d then DeleteDoc(token, d, ix, k) else d
  }

  // ----- the invariant -----

  // An entry names a document that has the field, with that value.
  ghost predicate EntryOK(token: Token, db: Store, ix: set<string>, x: string) {
    exists f, k ::
      && f in ix && UserKey(k) && k in db && f in FieldsOf(db, k)
      && x == Entry(token, f, FieldsOf(db, k), k) && x in db && db[x] == Ref(k)
  }

  ghost predicate ExpiryOK(db: Store, x: string) {
    exists k :: UserKey(k) && k in db && x == ExpiryKey(k) && x in db && db[x].Expiry?
  }

  // Nothing but documents, entries that are right and expiry times of documents.
  ghost predicate Sound(token: Token, db: Store, ix: set<string>) {
    forall x :: x in db ==> (UserKey(x) && db[x].Doc?) || EntryOK(token, db, ix, x) || ExpiryOK(db, x)
  }

  // No live document lacks an entry for an indexed field it has.
  ghost predicate Complete(token: Token, db: Store, ix: set<string>, now: real) {
    forall k, f :: Live(db, k, now) && f in ix && f in FieldsOf(db, k) ==>
      var e := Entry(token, f, FieldsOf(db, k), k); e in db && db[e] == Ref(k)
  }

  ghost predicate Inv(token: Token, db: Store, ix: set<string>, now: real) {
    && PlainTokens(token) && (forall f :: f in ix ==> Plain(f))
    && Sound(token, db, ix) && Complete(token, db, ix, now)
  }

  // ----- time -----

  // What has expired stays so.
  lemma TimePasses(token: Token, db: Store, ix: set<string>, now: real, later: real)
    requires Inv(token, db, ix, now) && now <= later
    ensures Inv(token, db, ix, later)
  {
    assert forall k :: Live(db, k, later) ==> Live(db, k, now);
  }

  // ----- what is where -----

  lemma EntryNames(token: Token, f: string, fields: Fields, k: string)
    requires PlainTokens(token) && Plain(f) && f in fields
    ensures !UserKey(Entry(token, f, fields, k))
    ensures forall j :: Entry(token, f, fields, k) != ExpiryKey(j)
    ensures forall g, more: Fields, j ::
              Plain(g) && g in more && Entry(token, g, more, j) == Entry(token, f, fields, k) ==>
              g == f && j == k && token(more[g]) == token(fields[f])
  {
    KindsApart(f, token(fields[f]), k, k);
    forall j ensures Entry(token, f, fields, k) != ExpiryKey(j) { KindsApart(f, token(fields[f]), k, j); }
    forall g, more: Fields, j | Plain(g) && g in more && Entry(token, g, more, j) == Entry(token, f, fields, k)
      ensures g == f && j == k && token(more[g]) == token(fields[f])
    {
      IndexKeyInjective(g, token(more[g]), j, f, token(fields[f]), k);
    }
  }

  // Entries of one document are nothing else: no document, no expiry time, no other's entry.
  lemma EntriesApart(token: Token, ix: set<string>, k: string, fields: Fields, x: string)
    requires PlainTokens(token) && (forall f :: f in ix ==> Plain(f)) && x in Entries(token, ix, k, fields)
    ensures !UserKey(x) && forall j :: x != ExpiryKey(j)
    ensures forall g, more: Fields, j :: Plain(g) && g in more && Entry(token, g, more, j) == x ==> j == k
  {
    var f :| f in ix && f in fields && Entry(token, f, fields, k) == x;
    EntryNames(token, f, fields, k);
  }

  predicate Same(db: Store, d: Store, x: string) {
    (x in db <==> x in d) && (x in db ==> db[x] == d[x])
  }

  // Nothing about any other document has changed.
  ghost predicate Beside(token: Token, db: Store, d: Store, k: string) {
    && (forall j :: UserKey(j) && j != k ==> Same(db, d, j) && Same(db, d, ExpiryKey(j)))
    && (forall g, more: Fields, j :: Plain(g) && g in more && j != k ==> Same(db, d, Entry(token, g, more, j)))
  }

  lemma LiveBeside(token: Token, db: Store, d: Store, k: string, now: real, j: string)
    requires Beside(token, db, d, k) && j != k
    ensures Live(db, j, now) <==> Live(d, j, now)
    ensures UserKey(j) ==> FieldsOf(db, j) == FieldsOf(d, j)
  {
    if UserKey(j) {
      assert Same(db, d, j) && Same(db, d, ExpiryKey(j));
    }
  }

  // Live documents keep their entries if only `k` was touched and `k` has its own.
  lemma CompleteBeside(token: Token, db: Store, d: Store, ix: set<string>, k: string, now: real)
    requires Inv(token, db, ix, now) && Beside(token, db, d, k)
    requires Live(d, k, now) ==>
               forall f :: f in ix && f in FieldsOf(d, k) ==>
                 var e := Entry(token, f, FieldsOf(d, k), k); e in d && d[e] == Ref(k)
    ensures Complete(token, d, ix, now)
  {
    forall j, f | Live(d, j, now) && f in ix && f in FieldsOf(d, j)
      ensures var e := Entry(token, f, FieldsOf(d, j), j); e in d && d[e] == Ref(j)
    {
      if j != k {
        LiveBeside(token, db, d, k, now, j);
        assert Same(db, d, Entry(token, f, FieldsOf(db, j), j));
      }
    }
  }

  // What `d` holds beside what is about `k` was there before.
  ghost predicate Accounted(token: Token, db: Store, d: Store, ix: set<string>, k: string) {
    forall x :: x in d ==>
      || (x == k && d[x].Doc?)
      || (x == ExpiryKey(k) && d[x].Expiry? && k in d)
      || (x in Entries(token, ix, k, FieldsOf(d, k)) && d[x] == Ref(k) && k in d)
      || (x in db && d[x] == db[x] && x != k && x != ExpiryKey(k) && x !in Entries(token, ix, k, FieldsOf(db, k)))
  }

  lemma SoundBeside(token: Token, db: Store, d: Store, ix: set<string>, k: string, now: real)
    requires Inv(token, db, ix, now) && Beside(token, db, d, k) && UserKey(k) && Accounted(token, db, d, ix, k)
    ensures Sound(token, d, ix)
  {
    hide Inv, PlainTokens, Complete;
    assert Sound(token, db, ix) by { UseInv(token, db, ix, now); }
    forall x | x in d
      ensures (UserKey(x) && d[x].Doc?) || EntryOK(token, d, ix, x) || ExpiryOK(d, x)
    {
      if x in Entries(token, ix, k, FieldsOf(d, k)) && d[x] == Ref(k) && k in d {
        var f :| f in ix && f in FieldsOf(d, k) && Entry(token, f, FieldsOf(d, k), k) == x;
      } else if x != k && x != ExpiryKey(k) {
        if EntryOK(token, db, ix, x) {
          var f, j :| && f in ix && UserKey(j) && j in db && f in FieldsOf(db, j)
                      && x == Entry(token, f, FieldsOf(db, j), j) && db[x] == Ref(j);
          LiveBeside(token, db, d, k, now, j);
          assert Same(db, d, j);
          assert j in d && f in FieldsOf(d, j) && x == Entry(token, f, FieldsOf(d, j), j);
        } else if ExpiryOK(db, x) {
          var j :| UserKey(j) && j in db && x == ExpiryKey(j);
          assert Same(db, d, j);
        }
      }
    }
  }

  lemma UseInv(token: Token, db: Store, ix: set<string>, now: real)
    requires Inv(token, db, ix, now)
    ensures PlainTokens(token) && (forall f :: f in ix ==> Plain(f))
    ensures Sound(token, db, ix) && Complete(token, db, ix, now)
  {
  }

  // ----- set and delete -----

  lemma ApartForAll(token: Token, ix: set<string>, k: string, fields: Fields)
    requires PlainTokens(token) && forall f :: f in ix ==> Plain(f)
    ensures forall x :: x in Entries(token, ix, k, fields) ==> !UserKey(x) && forall j :: x != ExpiryKey(j)
    ensures forall g, more: Fields, j :: Plain(g) && g in more && j != k ==>
            Entry(token, g, more, j) !in Entries(token, ix, k, fields)
  {
    forall x | x in Entries(token, ix, k, fields) ensures !UserKey(x) && forall j :: x != ExpiryKey(j) {
      EntriesApart(token, ix, k, fields, x);
    }
    forall g, more: Fields, j | Plain(g) && g in more && j != k
      ensures Entry(token, g, more, j) !in Entries(token, ix, k, fields)
    {
      if Entry(token, g, more, j) in Entries(token, ix, k, fields) {
        EntriesApart(token, ix, k, fields, Entry(token, g, more, j));
      }
    }
  }

  // The new database point by point.
  ghost predicate Pointwise(db: Store, d: Store, removed: set<string>, added: set<string>, k: string, fields: Fields,
                            expiry: Option<real>) {
    forall x ::
      if x == ExpiryKey(k) then (x in d <==> expiry.Some?) && (x in d ==> d[x] == Expiry(expiry.value))
      else if x in added then x in d && d[x] == Ref(k)
      else if x == k then x in d && d[x] == Doc(fields)
      else if x in removed then x !in d
      else Same(db, d, x)
  }

  lemma SetDocPointwise(token: Token, db: Store, ix: set<string>, k: string, fields: Fields, expiry: Option<real>)
    ensures Pointwise(db, SetDoc(token, db, ix, k, fields, expiry),
                      Entries(token, ix, k, FieldsOf(db, k)), Entries(token, ix, k, fields), k, fields, expiry)
  {
    hide Entries, ExpiryKey;
  }

  lemma SetDocBeside(token: Token, db: Store, d: Store, removed: set<string>, added: set<string>, ix: set<string>,
                     k: string, fields: Fields, expiry: Option<real>)
    requires PlainTokens(token) && (forall f :: f in ix ==> Plain(f)) && UserKey(k)
    requires Pointwise(db, d, removed, added, k, fields, expiry)
    requires removed == Entries(token, ix, k, FieldsOf(db, k)) && added == Entries(token, ix, k, fields)
    ensures k in d && d[k] == Doc(fields) && Beside(token, db, d, k) && Accounted(token, db, d, ix, k)
  {
    hide Entry, Entries, PlainTokens, UserKey, ExpiryKey;
    ApartForAll(token, ix, k, fields);
    ApartForAll(token, ix, k, FieldsOf(db, k));
    NamesApart(token, k);
  }

  lemma SetDocParts(token: Token, db: Store, ix: set<string>, k: string, fields: Fields, expiry: Option<real>)
    requires PlainTokens(token) && (forall f :: f in ix ==> Plain(f)) && UserKey(k)
    ensures var d := SetDoc(token, db, ix, k, fields, expiry);
            && k in d && d[k] == Doc(fields)
            && (if expiry.Some? then ExpiryKey(k) in d && d[ExpiryKey(k)] == Expiry(expiry.value)
               else ExpiryKey(k) !in d)
            && (forall e :: e in Entries(token, ix, k, fields) ==> e in d && d[e] == Ref(k))
            && Beside(token, db, d, k) && Accounted(token, db, d, ix, k)
  {
    hide Entry, Entries, PlainTokens, UserKey, ExpiryKey, SetDoc, Beside, Accounted;
    var d := SetDoc(token, db, ix, k, fields, expiry);
    SetDocPointwise(token, db, ix, k, fields, expiry);
    SetDocBeside(token, db, d, Entries(token, ix, k, FieldsOf(db, k)), Entries(token, ix, k, fields), ix, k, fields,
        expiry);
    ApartForAll(token, ix, k, fields);
  }

  lemma NamesApart(token: Token, k: string)
    requires UserKey(k) && PlainTokens(token)
    ensures !UserKey(ExpiryKey(k)) && forall j :: j != k ==> ExpiryKey(j) != ExpiryKey(k)
    ensures forall j :: !UserKey(ExpiryKey(j))
    ensures forall g, more: Fields, j :: Plain(g) && g in more ==>
              !UserKey(Entry(token, g, more, j)) && Entry(token, g, more, j) != ExpiryKey(k)
  {
    forall j | ExpiryKey(j) == ExpiryKey(k) ensures j == k { ExpiryKeyInjective(j, k); }
    forall j ensures !UserKey(ExpiryKey(j)) { KindsApart("", "", "", j); }
    forall g, more: Fields, j | Plain(g) && g in more
      ensures !UserKey(Entry(token, g, more, j)) && Entry(token, g, more, j) != ExpiryKey(k)
    {
      EntryNames(token, g, more, j);
    }
  }

  lemma SetDocOK(token: Token, db: Store, ix: set<string>, k: string, fields: Fields, expiry: Option<real>, now: real)
    requires Inv(token, db, ix, now) && UserKey(k)
    ensures var d := SetDoc(token, db, ix, k, fields, expiry);
            && Inv(token, d, ix, now)
            && View(d, now) == if expiry.Some? && now >= expiry.value then View(db, now) - {k}
               else View(db, now)[k := fields]
  {
    hide SetDoc, Sound, Complete, PlainTokens;
    var d := SetDoc(token, db, ix, k, fields, expiry);
    SetDocParts(token, db, ix, k, fields, expiry);
    SoundBeside(token, db, d, ix, k, now);
    CompleteBeside(token, db, d, ix, k, now);
    ViewBeside(token, db, d, k, now);
  }

  lemma ViewBeside(token: Token, db: Store, d: Store, k: string, now: real)
    requires Beside(token, db, d, k)
    ensures View(d, now) == if Live(d, k, now) then View(db, now)[k := FieldsOf(d, k)] else View(db, now) - {k}
  {
    hide Beside;
    var v := if Live(d, k, now) then View(db, now)[k := FieldsOf(d, k)] else View(db, now) - {k};
    forall j ensures j in View(d, now) <==> j in v {
      if j != k { LiveBeside(token, db, d, k, now, j); }
    }
    forall j | j in v ensures View(d, now)[j] == v[j] {
      if j != k { LiveBeside(token, db, d, k, now, j); }
    }
  }

  lemma DeleteDocParts(token: Token, db: Store, ix: set<string>, k: string)
    requires PlainTokens(token) && (forall f :: f in ix ==> Plain(f)) && UserKey(k)
    ensures var d := DeleteDoc(token, db, ix, k);
            k !in d && ExpiryKey(k) !in d && Beside(token, db, d, k) && Accounted(token, db, d, ix, k)
  {
    hide Entry, Entries, PlainTokens, UserKey, ExpiryKey;
    ApartForAll(token, ix, k, FieldsOf(db, k));
    NamesApart(token, k);
  }

  lemma DeleteDocOK(token: Token, db: Store, ix: set<string>, k: string, now: real)
    requires Inv(token, db, ix, now) && UserKey(k)
    ensures var d := DeleteDoc(token, db, ix, k);
            Inv(token, d, ix, now) && View(d, now) == View(db, now) - {k}
  {
    hide DeleteDoc, Sound, Complete, PlainTokens;
    var d := DeleteDoc(token, db, ix, k);
    DeleteDocParts(token, db, ix, k);
    SoundBeside(token, db, d, ix, k, now);
    CompleteBeside(token, db, d, ix, k, now);
    ViewBeside(token, db, d, k, now);
  }

  // ----- create_index -----

  // Every listed document that has the field has its entry, and nothing else has changed.
  ghost predicate Backfilled(token: Token, db: Store, d: Store, field: string, ks: seq<string>) {
    && (forall k :: k in ks && field in FieldsOf(db, k) ==>
          var e := Entry(token, field, FieldsOf(db, k), k); e in d && d[e] == Ref(k))
    && (forall x :: Same(db, d, x) || IsNew(token, db, field, ks, x))
    && (forall x :: x in db ==> x in d)
  }

  ghost predicate IsNew(token: Token, db: Store, field: string, ks: seq<string>, x: string) {
    exists k :: k in ks && field in FieldsOf(db, k) && x == Entry(token, field, FieldsOf(db, k), k)
  }

  lemma {:induction false} BackfillIs(token: Token, db: Store, field: string, ks: seq<string>)
    requires PlainTokens(token) && Plain(field)
    ensures Backfilled(token, db, Backfill(token, db, field, ks), field, ks)
    decreases |ks|
  {
    if ks != [] {
      var before, k := ks[..|ks| - 1], ks[|ks| - 1];
      BackfillIs(token, db, field, before);
      BackfillStep(token, db, Backfill(token, db, field, before), field, before, k);
      assert ks == before + [k];
    }
  }

  lemma BackfillStep(token: Token, db: Store, d: Store, field: string, ks: seq<string>, k: string)
    requires PlainTokens(token) && Plain(field) && Backfilled(token, db, d, field, ks)
    ensures Backfilled(token, db, Put(d, Entries(token, {field}, k, FieldsOf(db, k)), k), field, ks + [k])
  {
    hide PlainTokens, Entry, FieldsOf;
    var es := Entries(token, {field}, k, FieldsOf(db, k));
    var r := Put(d, es, k);
    if field in FieldsOf(db, k) {
      EntryNames(token, field, FieldsOf(db, k), k);
      assert es == {Entry(token, field, FieldsOf(db, k), k)};
    }
    forall x ensures Same(db, r, x) || IsNew(token, db, field, ks + [k], x) {
      if x in es {
        assert k in ks + [k];
      } else if IsNew(token, db, field, ks, x) {
        var j :| j in ks && field in FieldsOf(db, j) && x == Entry(token, field, FieldsOf(db, j), j);
        assert j in ks + [k];
      }
    }
  }

  lemma BackfillKeeps(token: Token, db: Store, d: Store, field: string, ks: seq<string>, k: string, now: real)
    requires PlainTokens(token) && Plain(field) && Backfilled(token, db, d, field, ks)
    ensures UserKey(k) ==> Same(db, d, k) && FieldsOf(d, k) == FieldsOf(db, k)
    ensures Same(db, d, ExpiryKey(k))
    ensures Live(d, k, now) <==> Live(db, k, now)
  {
    forall j | j in ks && field in FieldsOf(db, j)
      ensures !UserKey(Entry(token, field, FieldsOf(db, j), j))
              && Entry(token, field, FieldsOf(db, j), j) != ExpiryKey(k)
    {
      EntryNames(token, field, FieldsOf(db, j), j);
    }
    assert Same(db, d, ExpiryKey(k)) || IsNew(token, db, field, ks, ExpiryKey(k));
    assert Same(db, d, k) || IsNew(token, db, field, ks, k);
  }

  // An entry that was right before is right after.
  lemma BackfillEntry(token: Token, db: Store, d: Store, field: string, ks: seq<string>, f: string, fields: Fields,
                      k: string)
    requires PlainTokens(token) && Plain(field) && Backfilled(token, db, d, field, ks)
    requires Plain(f) && f in fields
    requires Entry(token, f, fields, k) in db && db[Entry(token, f, fields, k)] == Ref(k)
    ensures Entry(token, f, fields, k) in d && d[Entry(token, f, fields, k)] == Ref(k)
  {
    var x := Entry(token, f, fields, k);
    if !Same(db, d, x) {
      var j :| j in ks && field in FieldsOf(db, j) && x == Entry(token, field, FieldsOf(db, j), j);
      EntryNames(token, f, fields, k);
    }
  }

  lemma BackfillComplete(token: Token, db: Store, d: Store, ix: set<string>, field: string, ks: seq<string>, now: real)
    requires Inv(token, db, ix, now) && Plain(field) && Backfilled(token, db, d, field, ks)
    requires forall k :: Live(db, k, now) ==> k in ks
    ensures Complete(token, d, ix + {field}, now)
  {
    hide Backfilled, Sound, PlainTokens, UserKey;
    forall k, f | Live(d, k, now) && f in ix + {field} && f in FieldsOf(d, k)
      ensures var e := Entry(token, f, FieldsOf(d, k), k); e in d && d[e] == Ref(k)
    {
      BackfillKeeps(token, db, d, field, ks, k, now);
      if f == field {
        BackfillHas(token, db, d, field, ks, k);
      } else {
        BackfillEntry(token, db, d, field, ks, f, FieldsOf(db, k), k);
      }
    }
  }

  lemma BackfillHas(token: Token, db: Store, d: Store, field: string, ks: seq<string>, k: string)
    requires Backfilled(token, db, d, field, ks) && k in ks && field in FieldsOf(db, k)
    ensures var e := Entry(token, field, FieldsOf(db, k), k); e in d && d[e] == Ref(k)
  {
  }

  lemma BackfillSound(token: Token, db: Store, d: Store, ix: set<string>, field: string, ks: seq<string>, now: real)
    requires Inv(token, db, ix, now) && Plain(field) && Backfilled(token, db, d, field, ks)
    requires forall k :: k in ks ==> UserKey(k) && k in db
    ensures Sound(token, d, ix + {field})
  {
    hide PlainTokens, UserKey, Complete, Entry;
    forall x | x in d
      ensures (UserKey(x) && d[x].Doc?) || EntryOK(token, d, ix + {field}, x) || ExpiryOK(d, x)
    {
      if IsNew(token, db, field, ks, x) {
        var k :| k in ks && field in FieldsOf(db, k) && x == Entry(token, field, FieldsOf(db, k), k);
        BackfillKeeps(token, db, d, field, ks, k, now);
      } else if EntryOK(token, db, ix, x) {
        var f, k :| && f in ix && UserKey(k) && k in db && f in FieldsOf(db, k)
                    && x == Entry(token, f, FieldsOf(db, k), k) && x in db && db[x] == Ref(k);
        BackfillKeeps(token, db, d, field, ks, k, now);
        BackfillEntry(token, db, d, field, ks, f, FieldsOf(db, k), k);
        assert f in ix + {field} && f in FieldsOf(d, k) && x == Entry(token, f, FieldsOf(d, k), k);
      } else if ExpiryOK(db, x) {
        var k :| UserKey(k) && k in db && x == ExpiryKey(k);
        BackfillKeeps(token, db, d, field, ks, k, now);
      }
    }
  }

  // Creating an index changes nothing a reader sees, and leaves no live document out.
  lemma BackfillOK(token: Token, db: Store, ix: set<string>, field: string, ks: seq<string>, now: real)
    requires Inv(token, db, ix, now) && Plain(field) && forall k :: k in ks <==> Live(db, k, now)
    ensures var d := Backfill(token, db, field, ks);
            Inv(token, d, ix + {field}, now) && View(d, now) == View(db, now)
  {
    hide Sound, Complete, Backfilled, PlainTokens, UserKey;
    var d := Backfill(token, db, field, ks);
    BackfillIs(token, db, field, ks);
    BackfillSound(token, db, d, ix, field, ks, now);
    BackfillComplete(token, db, d, ix, field, ks, now);
    forall k
      ensures k in View(d, now) <==> k in View(db, now)
      ensures k in View(db, now) ==> View(d, now)[k] == View(db, now)[k]
    {
      BackfillKeeps(token, db, d, field, ks, k, now);
    }
  }

  // ----- sweep -----

  // Sweeping removes every listed document and nothing a reader sees.
  lemma {:induction false} SweepOK(token: Token, db: Store, ix: set<string>, ks: seq<string>, now: real)
    requires Inv(token, db, ix, now) && forall k :: k in ks ==> UserKey(k) && k !in View(db, now)
    ensures var d := Sweep(token, db, ix, ks);
            && Inv(token, d, ix, now) && View(d, now) == View(db, now)
            && (forall x :: x in d ==> x in db && d[x] == db[x])
            && (forall k :: k in ks ==> k !in d)
    decreases |ks|
  {
    hide Inv, View, UserKey;
    if ks != [] {
      var before, k := ks[..|ks| - 1], ks[|ks| - 1];
      SweepOK(token, db, ix, before, now);
      var d := Sweep(token, db, ix, before);
      assert ks == before + [k];
      DeleteDocOK(token, d, ix, k, now);
    }
  }
}
