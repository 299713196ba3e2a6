/** Facts about sequences shared by the scoring and ranking proofs. */
module SeqFacts {

  /** Taking out the element at index `i` removes one occurrence of it. */
  lemma MultisetRemoveAt<T>(s: seq<T>, i: nat)
    requires i < |s|
    ensures multiset(s[..i] + s[i + 1..]) == multiset(s) - multiset{s[i]}
  {
    assert s == s[..i] + [s[i]] + s[i + 1..];
  }

  /** If `b` is a permutation of the non-empty `a`, the first element of `a`
      sits in `b` at some index `j`, and the rest of `a` is a permutation of
      `b` without that element. */
  lemma MatchHead<T>(a: seq<T>, b: seq<T>) returns (j: nat)
    requires multiset(a) == multiset(b) && a != []
    ensures j < |b| && b[j] == a[0]
    ensures multiset(a[1..]) == multiset(b[..j] + b[j + 1..])
  {
    assert a[0] in multiset(b);
    j :| 0 <= j < |b| && b[j] == a[0];
    assert multiset(a[1..]) == multiset(a) - multiset{a[0]} by {
      MultisetRemoveAt(a, 0);
      assert a[..0] + a[1..] == a[1..];
    }
    MultisetRemoveAt(b, j);
  }
}
