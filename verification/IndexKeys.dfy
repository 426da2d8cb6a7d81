/** Reserved keys of a collection (`imustore/collection.py`): index entries and expiry times live in
    the same database as the documents, under names no document can have. */
module IndexKeys {
  import opened KeyOrder

  const SEPARATOR: string := "\0"
  const INDEX_PREFIX: string := "\0idx\0"
  const EXPIRY_PREFIX: string := "\0exp\0"

  predicate Plain(s: string) {
    '\0' !in s
  }

  function IndexKey(field: string, token: string, pk: string): string {
    INDEX_PREFIX + field + SEPARATOR + token + SEPARATOR + pk
  }

  function ScanPrefix(field: string, token: string): string {
    INDEX_PREFIX + field + SEPARATOR + token + SEPARATOR
  }

  function ExpiryKey(pk: string): string {
    EXPIRY_PREFIX + pk
  }

  // The names documents may have; the source refuses others.
  predicate UserKey(k: string) {
    k != [] && k[0] != '\0'
  }

  // A separator-free string ends where the first separator is.
  lemma {:induction false} SplitOnce(a: string, x: string, b: string, y: string)
    requires Plain(a) && Plain(b) && a + SEPARATOR + x == b + SEPARATOR + y
    ensures a == b && x == y
  {
    var s, t := a + SEPARATOR + x, b + SEPARATOR + y;
    assert s[|a|] == '\0' && t[|b|] == '\0';
    assert forall i :: 0 <= i < |a| ==> s[i] == a[i];
    assert forall i :: 0 <= i < |b| ==> t[i] == b[i];
    assert |a| == |b|;
    assert s[..|a|] == a && t[..|b|] == b;
    assert s[|a| + 1..] == x && t[|b| + 1..] == y;
  }

  lemma IndexKeyParts(field: string, token: string, pk: string)
    ensures IndexKey(field, token, pk) == INDEX_PREFIX + (field + SEPARATOR + (token + SEPARATOR + pk))
    ensures IndexKey(field, token, pk) == ScanPrefix(field, token) + pk
  {
  }

  // An index key tells its field, its value's token and its document apart.
  lemma IndexKeyInjective(f: string, t: string, pk: string, g: string, u: string, qk: string)
    requires Plain(f) && Plain(t) && Plain(g) && Plain(u)
    requires IndexKey(f, t, pk) == IndexKey(g, u, qk)
    ensures f == g && t == u && pk == qk
  {
    IndexKeyParts(f, t, pk);
    IndexKeyParts(g, u, qk);
    var a, b := f + SEPARATOR + (t + SEPARATOR + pk), g + SEPARATOR + (u + SEPARATOR + qk);
    assert IndexKey(f, t, pk)[|INDEX_PREFIX|..] == a && IndexKey(g, u, qk)[|INDEX_PREFIX|..] == b;
    SplitOnce(f, t + SEPARATOR + pk, g, u + SEPARATOR + qk);
    SplitOnce(t, pk, u, qk);
  }

  // Field names must be free of separators: any two of the three parts can be shifted into each
  // other otherwise.
  lemma SeparatorsCollide(f: string, t: string, u: string, pk: string)
    ensures IndexKey(f + SEPARATOR + t, u, pk) == IndexKey(f, t, u + SEPARATOR + pk)
  {
    IndexKeyParts(f + SEPARATOR + t, u, pk);
    IndexKeyParts(f, t, u + SEPARATOR + pk);
    assert (f + SEPARATOR + t) + SEPARATOR + (u + SEPARATOR + pk) ==
           f + SEPARATOR + (t + SEPARATOR + (u + SEPARATOR + pk));
  }

  // A scan for a field and a value meets exactly the entries of that field and value.
  lemma ScanFinds(f: string, t: string, g: string, u: string, qk: string)
    requires Plain(f) && Plain(t) && Plain(g) && Plain(u)
    ensures ScanPrefix(f, t) <= IndexKey(g, u, qk) <==> f == g && t == u
  {
    IndexKeyParts(g, u, qk);
    var p, k := ScanPrefix(f, t), IndexKey(g, u, qk);
    if p <= k {
      var pk := k[|p|..];
      assert k == p + pk;
      IndexKeyParts(f, t, pk);
      IndexKeyInjective(f, t, pk, g, u, qk);
    }
  }

  // The three kinds of key never meet.
  lemma KindsApart(f: string, t: string, pk: string, qk: string)
    ensures !UserKey(IndexKey(f, t, pk)) && !UserKey(ExpiryKey(qk)) && IndexKey(f, t, pk) != ExpiryKey(qk)
    ensures !(INDEX_PREFIX <= ExpiryKey(qk))
  {
    assert IndexKey(f, t, pk)[0] == '\0' && IndexKey(f, t, pk)[1] == 'i' && ExpiryKey(qk)[1] == 'e';
  }

  lemma ExpiryKeyInjective(a: string, b: string)
    requires ExpiryKey(a) == ExpiryKey(b)
    ensures a == b
  {
    assert ExpiryKey(a)[|EXPIRY_PREFIX|..] == a && ExpiryKey(b)[|EXPIRY_PREFIX|..] == b;
  }

  // ----- ordered listings -----

  predicate Ascending(ks: seq<string>) {
    forall i, j :: 0 <= i < j < |ks| ==> Less(ks[i], ks[j])
  }

  // The members of a set in key order.
  ghost predicate Lists(ks: seq<string>, s: set<string>) {
    Ascending(ks) && forall k :: k in ks <==> k in s
  }

  lemma {:induction false} LessTransitive(a: string, b: string, c: string)
    requires Less(a, b) && Less(b, c)
    ensures Less(a, c)
  {
    if a != [] && a[0] == b[0] && b[0] == c[0] { LessTransitive(a[1..], b[1..], c[1..]); }
  }

  lemma {:induction false} LessIrreflexive(a: string)
    ensures !Less(a, a)
  {
    if a != [] { LessIrreflexive(a[1..]); }
  }

  // A set has one listing.
  lemma {:induction false} OneListing(xs: seq<string>, ys: seq<string>, s: set<string>)
    requires Lists(xs, s) && Lists(ys, s)
    ensures xs == ys
    decreases |xs|
  {
    assert ys != [] ==> ys[0] in s;
    if xs != [] {
      assert xs[0] in ys;
      var i :| 0 <= i < |ys| && ys[i] == xs[0];
      assert ys[0] in xs;
      var j :| 0 <= j < |xs| && xs[j] == ys[0];
      if i > 0 && j > 0 {
        LessTransitive(xs[0], xs[j], xs[0]);
        LessIrreflexive(xs[0]);
      }
      assert xs[0] == ys[0];
      TailListing(xs, s);
      TailListing(ys, s);
      OneListing(xs[1..], ys[1..], s - {xs[0]});
      assert xs == [xs[0]] + xs[1..] && ys == [ys[0]] + ys[1..];
    }
  }

  lemma TailListing(xs: seq<string>, s: set<string>)
    requires xs != [] && Lists(xs, s)
    ensures Lists(xs[1..], s - {xs[0]})
  {
    assert xs == [xs[0]] + xs[1..];
    LessIrreflexive(xs[0]);
    assert xs[0] !in xs[1..];
    assert forall k :: k in xs <==> k == xs[0] || k in xs[1..];
  }
}
