/** Cardinality facts about finite sets that the board proofs rely on. */
module Sets {

  /** A set with two distinct members has at least two elements. */
  lemma TwoMembers<T>(s: set<T>, p: T, q: T)
    requires p in s && q in s && p != q
    ensures |s| >= 2
  {
    var rest := s - {p};
    assert q in rest;
    assert |rest| >= 1;
    assert s == rest + {p};
  }

  /** Conversely, a set with at least two elements has a member other than p. */
  lemma OtherMember<T>(s: set<T>, p: T) returns (q: T)
    requires |s| >= 2 && p in s
    ensures q in s && q != p
  {
    assert |s - {p}| == |s| - 1;
    q :| q in s - {p};
  }

  /** A strictly larger superset has a member outside the smaller set. */
  lemma Missing<T>(a: set<T>, b: set<T>) returns (x: T)
    requires a <= b && |a| < |b|
    ensures x in b && x !in a
  {
    var d := b - a;
    assert b == a + d && a !! d;
    assert |d| == |b| - |a|;
    x :| x in d;
  }

  /** A subset is no larger than its superset. */
  lemma {:induction false} SubsetCardinality<T>(a: set<T>, b: set<T>)
    requires a <= b
    ensures |a| <= |b|
  {
    assert b == a + (b - a) && a !! (b - a);
  }

  /** A subset of a pair has at most two elements. */
  lemma SubsetOfPair<T>(t: set<T>, u: T, v: T)
    requires t <= {u, v}
    ensures |t| <= 2
  {
    assert |{u, v}| <= 2;
    SubsetCardinality(t, {u, v});
  }
}
