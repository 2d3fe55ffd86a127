/** Facts about sequences without repeats and about who refers to what. */
module Collections {

  function Elements<T>(q: seq<T>): set<T> {
    set x | x in q
  }

  /** An element, no matter which, as the iteration over a hash table yields it. */
  method Pick<T(==)>(s: set<T>) returns (x: T)
    requires s != {}
    ensures x in s
  {
    x :| x in s;
  }

  lemma SomeElement<T>(s: set<T>) returns (x: T)
    requires |s| > 0
    ensures x in s
  {
    x :| x in s;
  }

  predicate Distinct<T(==)>(q: seq<T>) {
    forall i, j | 0 <= i < j < |q| :: q[i] != q[j]
  }

  lemma {:induction false} DistinctSize<T>(q: seq<T>)
    requires Distinct(q)
    ensures |Elements(q)| == |q|
  {
    if q != [] {
      DistinctSize(q[1..]);
      assert Elements(q) == Elements(q[1..]) + {q[0]};
    }
  }

  lemma SubsetSize<T>(a: set<T>, b: set<T>)
    requires a <= b
    ensures |a| <= |b|
  {
    assert b == a + (b - a);
  }

  /** The handles that refer to `n`. */
  function Claims<H, N(==)>(refs: map<H, N>, n: N): set<H> {
    set h | h in refs && refs[h] == n
  }

  lemma ClaimsGrow<H, N>(refs: map<H, N>, h: H, n: N, m: N)
    requires h !in refs
    ensures Claims(refs[h := n], m) == Claims(refs, m) + if m == n then {h} else {}
    ensures |Claims(refs[h := n], m)| == |Claims(refs, m)| + if m == n then 1 else 0
  {
    assert Claims(refs[h := n], m) == Claims(refs, m) + if m == n then {h} else {};
  }

  lemma ClaimsShrink<H, N>(refs: map<H, N>, h: H, m: N)
    requires h in refs
    ensures |Claims(refs - {h}, m)| == |Claims(refs, m)| - if m == refs[h] then 1 else 0
  {
    assert Claims(refs - {h}, m) == Claims(refs, m) - if m == refs[h] then {h} else {};
  }
}
