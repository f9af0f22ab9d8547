/** Record keys are strings, and everything that depends on their order (the
    winner of a union, the sorted members of a group) uses the lexicographic
    order on code points. This module defines that order and shows that it is a
    strict total order. */
module Keys {
  type Key = string

  /** `a` comes strictly before `b`: at the first position where they differ, `a`
      has ended or holds the smaller code point. */
  predicate Precedes(a: Key, b: Key) {
    exists i :: 0 <= i <= |a| && DiffersAt(a, b, i)
  }

  predicate DiffersAt(a: Key, b: Key, i: nat) {
    && i <= |a| && i < |b|
    && a[..i] == b[..i]
    && (i == |a| || a[i] < b[i])
  }

  predicate AtMost(a: Key, b: Key) {
    a == b || Precedes(a, b)
  }

  lemma PrecedesIrreflexive(a: Key)
    ensures !Precedes(a, a)
  {
  }

  lemma PrecedesTransitive(a: Key, b: Key, c: Key)
    requires Precedes(a, b) && Precedes(b, c)
    ensures Precedes(a, c)
  {
    var i :| 0 <= i <= |a| && DiffersAt(a, b, i);
    var j :| 0 <= j <= |b| && DiffersAt(b, c, j);
    var k := if i < j then i else j;
    assert a[..k] == a[..i][..k] == b[..i][..k] == b[..k];
    assert b[..k] == b[..j][..k] == c[..j][..k] == c[..k];
    if i < j {
      assert b[i] == b[..j][i] == c[..j][i] == c[i];
    } else if j < i {
      assert a[j] == a[..i][j] == b[..i][j] == b[j];
    }
    assert DiffersAt(a, c, k);
  }

  lemma PrecedesTotal(a: Key, b: Key)
    ensures a == b || Precedes(a, b) || Precedes(b, a)
  {
    var i := 0;
    while i < |a| && i < |b| && a[i] == b[i]
      invariant i <= |a| && i <= |b| && a[..i] == b[..i]
    {
      i := i + 1;
    }
    if i == |a| && i == |b| {
      assert a == a[..i] && b == b[..i];
    } else {
      assert DiffersAt(a, b, i) || DiffersAt(b, a, i);
    }
  }

  lemma PrecedesAsymmetric(a: Key, b: Key)
    requires Precedes(a, b)
    ensures a != b && !Precedes(b, a)
  {
    PrecedesIrreflexive(a);
    if Precedes(b, a) {
      PrecedesTransitive(a, b, a);
    }
  }

  /** The keys of `keys` that come before `k`; a shrinking measure along parent chains. */
  ghost function Below(keys: set<Key>, k: Key): set<Key> {
    set j | j in keys && Precedes(j, k)
  }

  lemma BelowShrinks(keys: set<Key>, j: Key, k: Key)
    requires j in keys && Precedes(j, k)
    ensures Below(keys, j) < Below(keys, k)
  {
    forall i | i in Below(keys, j) ensures i in Below(keys, k) {
      PrecedesTransitive(i, j, k);
    }
    PrecedesIrreflexive(j);
    assert j in Below(keys, k) && j !in Below(keys, j);
  }
}
