/** The union-find forest of the matchers: parents are updated in place, also by
    `Find`, and it refines the partitions of module `Partitions`. */
module Forests {
  import opened Keys
  import opened Partitions

  /** The parent is in the forest, and comes before the key unless it is the key itself. */
  ghost predicate Grounded(parent: map<Key, Key>, k: Key)
    requires k in parent
  {
    parent[k] in parent && AtMost(parent[k], k)
  }

  ghost predicate Forest(parent: map<Key, Key>) {
    forall k {:trigger Grounded(parent, k)} :: k in parent ==> Grounded(parent, k)
  }

  /** The end of the parent chain; it terminates because parents strictly decrease. */
  ghost function Root(parent: map<Key, Key>, k: Key): (r: Key)
    requires Forest(parent) && k in parent
    ensures r in parent && parent[r] == r && AtMost(r, k)
    decreases Below(parent.Keys, k)
  {
    if parent[k] == k then k
    else
      assert Grounded(parent, k);
      BelowShrinks(parent.Keys, parent[k], k);
      var r := Root(parent, parent[k]);
      assert AtMost(r, k) by { if Precedes(r, parent[k]) { PrecedesTransitive(r, parent[k], k); } }
      r
  }

  /** `Root`, named once more so that facts about all keys do not unfold parent chains. */
  ghost function Rep(parent: map<Key, Key>, k: Key): Key
    requires Forest(parent) && k in parent
  {
    Root(parent, k)
  }

  /** The forest stands for the partition `p`: every parent chain ends at the representative. */
  ghost predicate Represents(parent: map<Key, Key>, p: Partition) {
    && Forest(parent) && parent.Keys == p.Keys
    && forall k {:trigger Rep(parent, k)} :: k in parent ==> p[k] == Rep(parent, k)
  }

  lemma RepresentedValid(parent: map<Key, Key>, p: Partition)
    requires Represents(parent, p)
    ensures Valid(p)
  {
    forall k | k in p ensures Rooted(p, k) {
      assert p[k] == Rep(parent, k) && Rep(parent, Rep(parent, k)) == Rep(parent, k);
    }
  }

  lemma CompressForest(parent: map<Key, Key>, key: Key)
    requires Forest(parent) && key in parent
    ensures Forest(parent[key := Root(parent, key)])
  {
    forall k | k in parent ensures Grounded(parent[key := Root(parent, key)], k) {
      assert Grounded(parent, k);
    }
  }

  /** Path compression: pointing a key straight at its root keeps every root. */
  lemma {:induction false} CompressKeepsRoot(parent: map<Key, Key>, key: Key, k: Key)
    requires Forest(parent) && key in parent && k in parent
    requires Forest(parent[key := Root(parent, key)])
    ensures Root(parent[key := Root(parent, key)], k) == Root(parent, k)
    decreases Below(parent.Keys, k)
  {
    assert Grounded(parent, k);
    var next := parent[key := Root(parent, key)];
    if k == key {
      assert next[next[k]] == next[k];
    } else if parent[k] != k {
      BelowShrinks(parent.Keys, parent[k], k);
      CompressKeepsRoot(parent, key, parent[k]);
    }
  }

  lemma CompressKeepsPartition(parent: map<Key, Key>, p: Partition, key: Key)
    requires Represents(parent, p) && key in parent
    ensures Represents(parent[key := Root(parent, key)], p)
  {
    CompressForest(parent, key);
    var next := parent[key := Root(parent, key)];
    forall k {:trigger Rep(next, k)} | k in parent ensures p[k] == Rep(next, k) {
      CompressKeepsRoot(parent, key, k);
      assert p[k] == Rep(parent, k);
    }
  }

  ghost predicate Linkable(parent: map<Key, Key>, loser: Key, winner: Key) {
    && Forest(parent) && loser in parent && winner in parent
    && parent[loser] == loser && parent[winner] == winner && Precedes(winner, loser)
  }

  lemma LinkForest(parent: map<Key, Key>, loser: Key, winner: Key)
    requires Linkable(parent, loser, winner)
    ensures Forest(parent[loser := winner])
  {
    forall k | k in parent ensures Grounded(parent[loser := winner], k) {
      assert Grounded(parent, k);
    }
  }

  /** Linking one root below another moves exactly the keys of the losing root. */
  lemma {:induction false} LinkMovesLoser(parent: map<Key, Key>, loser: Key, winner: Key, k: Key)
    requires Linkable(parent, loser, winner) && Forest(parent[loser := winner]) && k in parent
    ensures Root(parent[loser := winner], k) == if Root(parent, k) == loser then winner else Root(parent, k)
    decreases Below(parent.Keys, k)
  {
    assert Grounded(parent, k);
    var next := parent[loser := winner];
    PrecedesIrreflexive(winner);
    if parent[k] != k {
      BelowShrinks(parent.Keys, parent[k], k);
      LinkMovesLoser(parent, loser, winner, parent[k]);
    } else if k == loser {
      assert Root(next, winner) == winner;
    }
  }

  lemma LinkIsMerge(parent: map<Key, Key>, p: Partition, loser: Key, winner: Key, a: Key, b: Key)
    requires Linkable(parent, loser, winner) && Represents(parent, p) && a in parent && b in parent
    requires (p[a] == loser && p[b] == winner) || (p[a] == winner && p[b] == loser)
    ensures Represents(parent[loser := winner], Merge(p, a, b))
    ensures Merge(p, a, b)[a] == Merge(p, a, b)[b] == winner
  {
    LinkForest(parent, loser, winner);
    PrecedesAsymmetric(winner, loser);
    var next, q := parent[loser := winner], Merge(p, a, b);
    forall k {:trigger Rep(next, k)} | k in parent ensures q[k] == Rep(next, k) {
      LinkMovesLoser(parent, loser, winner, k);
      assert p[k] == Rep(parent, k);
    }
  }

  class UnionFind {
    var parent: map<Key, Key>
    /** The partition that the forest stands for. */
    ghost var clusters: Partition

    ghost predicate Valid()
      reads this
    {
      Represents(parent, clusters) && Partitions.Valid(clusters)
    }

    constructor (keys: set<Key>)
      ensures Valid() && clusters == Discrete(keys)
    {
      parent := map k | k in keys :: k;
      clusters := Discrete(keys);
      new;
      assert forall k :: k in keys ==> Grounded(parent, k);
      DiscreteExplained(keys);
    }

    method Find(key: Key) returns (root: Key)
      requires Valid() && key in clusters
      modifies `parent
      ensures Valid()
      ensures root == clusters[key] == parent[key]
      decreases Below(parent.Keys, key)
    {
      var up := parent[key];
      assert Grounded(parent, key);
      assert clusters[key] == Rep(parent, key);
      if up != key {
        BelowShrinks(parent.Keys, up, key);
        assert clusters[up] == Rep(parent, up);
        var r := Find(up);
        assert r == Root(parent, key) by { assert clusters[key] == Rep(parent, key); }
        CompressKeepsPartition(parent, clusters, key);
        parent := parent[key := r];
      }
      root := parent[key];
    }

    method Union(left: Key, right: Key) returns (root: Key)
      requires Valid() && left in clusters && right in clusters
      modifies this
      ensures Valid() && clusters == Merge(old(clusters), left, right)
      ensures root == clusters[left] == clusters[right]
    {
      var leftRoot := Find(left);
      var rightRoot := Find(right);
      if leftRoot == rightRoot {
        MergeWithinCluster(clusters, left, right);
        return leftRoot;
      }
      PrecedesTotal(leftRoot, rightRoot);
      var winner := if Precedes(rightRoot, leftRoot) then rightRoot else leftRoot;
      var loser := if Precedes(rightRoot, leftRoot) then leftRoot else rightRoot;
      assert clusters[left] == Rep(parent, left) && clusters[right] == Rep(parent, right);
      LinkIsMerge(parent, clusters, loser, winner, left, right);
      MergeValid(clusters, left, right);
      parent := parent[loser := winner];
      clusters := Merge(clusters, left, right);
      root := winner;
    }
  }
}
