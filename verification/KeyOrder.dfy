/** Tree keys.

    The source's keys are non-empty strings compared code point by code point, and the trees use
    nothing of them but `<` and `==`. A key is modelled by its rank, a real number: `RankOrder`
    shows that ranks order strings exactly as the source does, so every tree of strings is, up to
    the names of its keys, a tree of ranks. */
module KeyOrder {
  type Key = real

  // One more than the number of code points, so that every digit is below the base.
  const BASE := 1114113.0

  predicate Less(a: string, b: string) {
    b != [] && (a == [] || a[0] < b[0] || (a[0] == b[0] && Less(a[1..], b[1..])))
  }

  function Rank(s: string): (r: Key)
    ensures 0.0 <= r < 1.0
  {
    if s == [] then 0.0 else (s[0] as int as real + 1.0 + Rank(s[1..])) / BASE
  }

  // The keys that can occur: a copy of the strings, by `RankOrder`.
  ghost predicate IsRank(k: Key) {
    exists s :: Rank(s) == k
  }

  lemma {:induction false} LessRank(a: string, b: string)
    requires Less(a, b)
    ensures Rank(a) < Rank(b)
  {
    if a != [] && a[0] == b[0] {
      LessRank(a[1..], b[1..]);
    }
  }

  lemma {:induction false} Trichotomy(a: string, b: string)
    ensures Less(a, b) || a == b || Less(b, a)
  {
    if a != [] && b != [] && a[0] == b[0] {
      Trichotomy(a[1..], b[1..]);
      assert a == [a[0]] + a[1..] && b == [b[0]] + b[1..];
    }
  }

  // Ranks compare exactly as strings do.
  lemma {:induction false} RankOrder(a: string, b: string)
    ensures Rank(a) < Rank(b) <==> Less(a, b)
    ensures Rank(a) == Rank(b) <==> a == b
  {
    Trichotomy(a, b);
    if Less(a, b) { LessRank(a, b); }
    if Less(b, a) { LessRank(b, a); }
  }
}
