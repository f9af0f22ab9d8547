/** Partitions of record keys, as maps from each key to the representative of its
    cluster, and the graph connectivity that clusterings are compared with. This
    is the simple form that the union-find forest refines. */
module Partitions {
  import opened Keys

  type Partition = map<Key, Key>
  type Pair = (Key, Key)

  /** The representative of `k` represents itself and is at most `k`. */
  ghost predicate Rooted(p: Partition, k: Key)
    requires k in p
  {
    p[k] in p && p[p[k]] == p[k] && AtMost(p[k], k)
  }

  ghost predicate Valid(p: Partition) {
    forall k {:trigger Rooted(p, k)} :: k in p ==> Rooted(p, k)
  }

  function Discrete(keys: set<Key>): Partition {
    map k | k in keys :: k
  }

  function Least(a: Key, b: Key): Key {
    if Precedes(b, a) then b else a
  }

  /** Joins the clusters of `a` and `b`; the least of the two representatives wins. */
  function Merge(p: Partition, a: Key, b: Key): Partition
    requires a in p && b in p
  {
    var winner := Least(p[a], p[b]);
    map k | k in p :: if p[k] == p[a] || p[k] == p[b] then winner else p[k]
  }

  /** Clusters of `p` stay together in `q`. */
  ghost predicate Coarser(p: Partition, q: Partition) {
    p.Keys == q.Keys && forall a, b {:trigger q[a], q[b]} :: a in p && b in p && p[a] == p[b] ==> q[a] == q[b]
  }

  ghost function Cluster(p: Partition, root: Key): set<Key> {
    set k | k in p && p[k] == root
  }

  ghost function Roots(p: Partition): set<Key> {
    set k | k in p && p[k] == k
  }

  lemma MergeRooted(p: Partition, a: Key, b: Key, k: Key)
    requires Valid(p) && a in p && b in p && k in p
    ensures Rooted(Merge(p, a, b), k)
  {
    var winner := Least(p[a], p[b]);
    assert Rooted(p, k) && Rooted(p, a) && Rooted(p, b);
    if p[k] == p[a] || p[k] == p[b] {
      PrecedesTotal(p[a], p[b]);
      if Precedes(winner, p[k]) && Precedes(p[k], k) {
        PrecedesTransitive(winner, p[k], k);
      }
    }
  }

  lemma MergeValid(p: Partition, a: Key, b: Key)
    requires Valid(p) && a in p && b in p
    ensures Valid(Merge(p, a, b))
    ensures Merge(p, a, b).Keys == p.Keys
  {
    forall k | k in p ensures Rooted(Merge(p, a, b), k) {
      MergeRooted(p, a, b, k);
    }
  }

  lemma MergeWithinCluster(p: Partition, a: Key, b: Key)
    requires a in p && b in p && p[a] == p[b]
    ensures Merge(p, a, b) == p
  {
  }

  /** A merge of two different clusters leaves exactly one root fewer. */
  lemma MergeDropsOneRoot(p: Partition, a: Key, b: Key)
    requires Valid(p) && a in p && b in p && p[a] != p[b]
    ensures |Roots(Merge(p, a, b))| == |Roots(p)| - 1
  {
    var q, winner := Merge(p, a, b), Least(p[a], p[b]);
    var loser := if winner == p[a] then p[b] else p[a];
    assert Rooted(p, a) && Rooted(p, b);
    assert Roots(p) == Roots(q) + {loser} && loser !in Roots(q);
  }

  /** Cluster sizes summed over any set of roots count exactly the keys of those clusters. */
  ghost function SizeSum(p: Partition, roots: set<Key>): nat {
    if roots == {} then 0
    else var r :| r in roots; |Cluster(p, r)| + SizeSum(p, roots - {r})
  }

  ghost function KeysUnder(p: Partition, roots: set<Key>): set<Key> {
    set k | k in p && p[k] in roots
  }

  lemma {:induction false} SizeSumCounts(p: Partition, roots: set<Key>)
    ensures SizeSum(p, roots) == |KeysUnder(p, roots)|
  {
    if roots == {} {
      assert KeysUnder(p, roots) == {};
    } else {
      var r :| r in roots && SizeSum(p, roots) == |Cluster(p, r)| + SizeSum(p, roots - {r});
      SizeSumCounts(p, roots - {r});
      assert KeysUnder(p, roots) == Cluster(p, r) + KeysUnder(p, roots - {r});
      assert Cluster(p, r) !! KeysUnder(p, roots - {r});
    }
  }

  /** Over all roots, cluster sizes sum to the number of records. */
  lemma SizesSumToTotal(p: Partition)
    requires Valid(p)
    ensures SizeSum(p, Roots(p)) == |p|
  {
    SizeSumCounts(p, Roots(p));
    forall k | k in p ensures k in KeysUnder(p, Roots(p)) {
      assert Rooted(p, k);
    }
    assert KeysUnder(p, Roots(p)) == p.Keys;
  }

  /** Two valid partitions with the same keys and the same clusters are equal,
      because the representative is determined by the cluster. */
  lemma SameClustersSamePartition(p: Partition, q: Partition)
    requires Valid(p) && Valid(q) && p.Keys == q.Keys
    requires forall a, b :: a in p && b in p ==> (p[a] == p[b] <==> q[a] == q[b])
    ensures p == q
  {
    forall k | k in p ensures p[k] == q[k] {
      assert Rooted(p, k) && Rooted(q, k);
      assert q[p[k]] == q[k] && p[q[k]] == p[k];
      if p[k] != q[k] {
        assert Rooted(q, p[k]) && Rooted(p, q[k]);
        PrecedesAsymmetric(p[k], q[k]);
      }
    }
  }

  // ----- Connectivity -----

  predicate Linked(links: set<Pair>, a: Key, b: Key) {
    (a, b) in links || (b, a) in links
  }

  ghost predicate Walk(links: set<Pair>, w: seq<Key>) {
    w != [] && forall i :: 0 <= i < |w| - 1 ==> Linked(links, w[i], w[i + 1])
  }

  /** `a` and `b` are joined by a chain of links, taken in either direction. */
  ghost predicate Connected(links: set<Pair>, a: Key, b: Key) {
    exists w :: Walk(links, w) && w[0] == a && w[|w| - 1] == b
  }

  lemma ConnectedRefl(links: set<Pair>, a: Key)
    ensures Connected(links, a, a)
  {
    assert Walk(links, [a]);
  }

  lemma ConnectedLink(links: set<Pair>, a: Key, b: Key)
    requires Linked(links, a, b)
    ensures Connected(links, a, b)
  {
    var w := [a, b];
    assert Walk(links, w) && w[0] == a && w[|w| - 1] == b;
  }

  lemma ConnectedSym(links: set<Pair>, a: Key, b: Key)
    requires Connected(links, a, b)
    ensures Connected(links, b, a)
  {
    var w :| Walk(links, w) && w[0] == a && w[|w| - 1] == b;
    var v := seq(|w|, i requires 0 <= i < |w| => w[|w| - 1 - i]);
    forall i | 0 <= i < |v| - 1 ensures Linked(links, v[i], v[i + 1]) {
      var j := |w| - 2 - i;
      assert Linked(links, w[j], w[j + 1]);
    }
    assert Walk(links, v) && v[0] == b && v[|v| - 1] == a;
  }

  lemma ConnectedTrans(links: set<Pair>, a: Key, b: Key, c: Key)
    requires Connected(links, a, b) && Connected(links, b, c)
    ensures Connected(links, a, c)
  {
    var w :| Walk(links, w) && w[0] == a && w[|w| - 1] == b;
    var v :| Walk(links, v) && v[0] == b && v[|v| - 1] == c;
    var u := w + v[1..];
    forall i | 0 <= i < |u| - 1 ensures Linked(links, u[i], u[i + 1]) {
      if i >= |w| - 1 {
        assert u[i] == v[i - |w| + 1] && u[i + 1] == v[i - |w| + 2];
      }
    }
    assert Walk(links, u) && u[0] == a && u[|u| - 1] == c;
  }

  /** Connectivity through `links` carries over to `more` when every link is connected there. */
  lemma {:induction false} WalkTransfer(links: set<Pair>, more: set<Pair>, w: seq<Key>)
    requires Walk(links, w)
    requires forall x :: x in links ==> Connected(more, x.0, x.1)
    ensures Connected(more, w[0], w[|w| - 1])
    decreases |w|
  {
    if |w| == 1 {
      ConnectedRefl(more, w[0]);
    } else {
      var n := |w| - 1;
      var front := w[..n];
      assert forall i :: 0 <= i < |front| - 1 ==> Linked(links, w[i], w[i + 1]) && front[i] == w[i];
      WalkTransfer(links, more, front);
      assert Linked(links, w[n - 1], w[n]);
      if (w[n - 1], w[n]) in links {
        assert Connected(more, (w[n - 1], w[n]).0, (w[n - 1], w[n]).1);
      } else {
        assert Connected(more, (w[n], w[n - 1]).0, (w[n], w[n - 1]).1);
        ConnectedSym(more, w[n], w[n - 1]);
      }
      ConnectedTrans(more, w[0], w[n - 1], w[n]);
    }
  }

  lemma ConnectedTransfer(links: set<Pair>, more: set<Pair>, a: Key, b: Key)
    requires forall x :: x in links ==> Connected(more, x.0, x.1)
    requires Connected(links, a, b)
    ensures Connected(more, a, b)
  {
    var w :| Walk(links, w) && w[0] == a && w[|w| - 1] == b;
    WalkTransfer(links, more, w);
  }

  lemma ConnectedMono(links: set<Pair>, more: set<Pair>, a: Key, b: Key)
    requires links <= more && Connected(links, a, b)
    ensures Connected(more, a, b)
  {
    var w :| Walk(links, w) && w[0] == a && w[|w| - 1] == b;
    assert Walk(more, w);
  }

  ghost predicate Within(links: set<Pair>, keys: set<Key>) {
    forall x :: x in links ==> x.0 in keys && x.1 in keys
  }

  /** The links explain the partition: keys share a cluster exactly when links connect them. */
  ghost predicate Explains(links: set<Pair>, p: Partition) {
    && Within(links, p.Keys)
    && forall a, b {:trigger Connected(links, a, b)} :: a in p && b in p ==> (p[a] == p[b] <==> Connected(links, a, b))
  }

  lemma {:induction false} WalkStaysInCluster(links: set<Pair>, p: Partition, w: seq<Key>)
    requires Walk(links, w) && w[0] in p && Within(links, p.Keys)
    requires forall x :: x in links && x.0 in p && x.1 in p ==> p[x.0] == p[x.1]
    ensures w[|w| - 1] in p && p[w[|w| - 1]] == p[w[0]]
    decreases |w|
  {
    if |w| > 1 {
      var n := |w| - 1;
      var front := w[..n];
      assert forall i :: 0 <= i < |front| - 1 ==> Linked(links, w[i], w[i + 1]) && front[i] == w[i];
      WalkStaysInCluster(links, p, front);
      assert Linked(links, w[n - 1], w[n]);
      assert (w[n - 1], w[n]) in links ==> p[(w[n - 1], w[n]).0] == p[(w[n - 1], w[n]).1];
      assert (w[n], w[n - 1]) in links ==> p[(w[n], w[n - 1]).0] == p[(w[n], w[n - 1]).1];
    }
  }

  /** Links inside clusters, and every key connected to its root, are enough to explain. */
  lemma ExplainsByRoots(links: set<Pair>, p: Partition)
    requires Valid(p) && Within(links, p.Keys)
    requires forall x :: x in links && x.0 in p && x.1 in p ==> p[x.0] == p[x.1]
    requires forall k {:trigger Connected(links, k, p[k])} :: k in p ==> Connected(links, k, p[k])
    ensures Explains(links, p)
  {
    forall a, b | a in p && b in p ensures p[a] == p[b] <==> Connected(links, a, b) {
      if p[a] == p[b] {
        assert Rooted(p, a);
        assert Connected(links, a, p[a]) && Connected(links, b, p[b]);
        ConnectedSym(links, b, p[b]);
        ConnectedTrans(links, a, p[a], b);
      }
      if Connected(links, a, b) {
        var w :| Walk(links, w) && w[0] == a && w[|w| - 1] == b;
        WalkStaysInCluster(links, p, w);
      }
    }
  }

  lemma DiscreteExplained(keys: set<Key>)
    ensures Valid(Discrete(keys)) && Explains({}, Discrete(keys))
  {
    forall k | k in keys {
      ConnectedRefl({}, k);
    }
    assert forall k :: k in keys ==> Rooted(Discrete(keys), k);
    ExplainsByRoots({}, Discrete(keys));
  }

  /** One more link connects every key to its representative after the merge. */
  lemma MergeConnects(links: set<Pair>, p: Partition, a: Key, b: Key, k: Key)
    requires Valid(p) && Explains(links, p) && a in p && b in p && k in p
    ensures Connected(links + {(a, b)}, k, Merge(p, a, b)[k])
  {
    var more, root := links + {(a, b)}, Merge(p, a, b)[k];
    assert Rooted(p, k) && Rooted(p, a) && Rooted(p, b);
    if p[k] == root {
      ConnectedMono(links, more, k, root);
    } else {
      var near, far := if p[k] == p[a] then a else b, if p[k] == p[a] then b else a;
      assert p[k] == p[near] && root == p[far];
      ConnectedMono(links, more, k, near);
      assert Linked(more, near, far);
      ConnectedLink(more, near, far);
      ConnectedTrans(more, k, near, far);
      ConnectedMono(links, more, far, root);
      ConnectedTrans(more, k, far, root);
    }
  }

  /** One more link explains one more merge. */
  lemma ExplainsMerge(links: set<Pair>, p: Partition, a: Key, b: Key)
    requires Valid(p) && Explains(links, p) && a in p && b in p
    ensures Explains(links + {(a, b)}, Merge(p, a, b))
  {
    var more, q := links + {(a, b)}, Merge(p, a, b);
    MergeValid(p, a, b);
    forall k {:trigger Connected(more, k, q[k])} | k in q ensures Connected(more, k, q[k]) {
      MergeConnects(links, p, a, b, k);
    }
    forall x | x in more ensures q[x.0] == q[x.1] {
      if x in links {
        ConnectedLink(links, x.0, x.1);
      }
    }
    ExplainsByRoots(more, q);
  }

  lemma SameLinksSamePartition(links: set<Pair>, p: Partition, q: Partition)
    requires Valid(p) && Valid(q) && p.Keys == q.Keys
    requires Explains(links, p) && Explains(links, q)
    ensures p == q
  {
    forall a, b | a in p && b in p ensures p[a] == p[b] <==> q[a] == q[b] {
      assert p[a] == p[b] <==> Connected(links, a, b);
    }
    SameClustersSamePartition(p, q);
  }
}
