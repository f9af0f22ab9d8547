/** The composite phase of the deterministic matcher. It starts from the partition
    of the trusted phase and takes candidate links in order: a link inside a cluster
    is dropped, a link between two clusters that both carry trusted keys and share
    none is recorded as a conflict, and any other link merges its clusters. */
module Composite {
  import opened Keys
  import opened Partitions
  import opened Records

  datatype Link = Link(left: Key, right: Key, rule: string)

  /** The keys that the trusted rules give to each record. */
  type Trusted = map<Key, set<RuleKey>>

  datatype Outcome = Outcome(p: Partition, links: seq<Link>, conflicts: seq<Link>)

  ghost predicate Joins(p: Partition, link: Link) {
    link.left in p && link.right in p
  }

  ghost predicate AllJoin(p: Partition, links: seq<Link>) {
    forall i {:trigger Joins(p, links[i])} :: 0 <= i < |links| ==> Joins(p, links[i])
  }

  ghost function Pairs(links: seq<Link>): set<Pair> {
    set l | l in links :: (l.left, l.right)
  }

  // ----- Trusted keys of clusters -----

  /** Record `k` is in the cluster of `root` and has the trusted key `v`. */
  ghost predicate Holds(vals: Trusted, p: Partition, root: Key, k: Key, v: RuleKey) {
    k in p && k in vals && p[k] == root && v in vals[k]
  }

  ghost predicate Present(vals: Trusted, p: Partition, root: Key, v: RuleKey) {
    exists k :: Holds(vals, p, root, k, v)
  }

  ghost predicate Carries(vals: Trusted, p: Partition, a: Key)
    requires a in p
  {
    exists k, v :: Holds(vals, p, p[a], k, v)
  }

  ghost predicate Shares(vals: Trusted, p: Partition, a: Key, b: Key)
    requires a in p && b in p
  {
    exists j, k, v :: Holds(vals, p, p[a], j, v) && Holds(vals, p, p[b], k, v)
  }

  ghost predicate Blocked(vals: Trusted, p: Partition, a: Key, b: Key)
    requires a in p && b in p
  {
    Carries(vals, p, a) && Carries(vals, p, b) && !Shares(vals, p, a, b)
  }

  // ----- The loop -----

  ghost function Step(vals: Trusted, o: Outcome, link: Link): Outcome
    requires Joins(o.p, link)
  {
    if o.p[link.left] == o.p[link.right] then o
    else if Blocked(vals, o.p, link.left, link.right) then o.(conflicts := o.conflicts + [link])
    else Outcome(Merge(o.p, link.left, link.right), o.links + [link], o.conflicts)
  }

  /** The state after the first `n` links. */
  ghost function After(vals: Trusted, start: Outcome, links: seq<Link>, n: nat): (o: Outcome)
    requires n <= |links| && AllJoin(start.p, links)
    ensures o.p.Keys == start.p.Keys
  {
    if n == 0 then start
    else
      var before := After(vals, start, links, n - 1);
      assert Joins(start.p, links[n - 1]);
      Step(vals, before, links[n - 1])
  }

  ghost function Run(vals: Trusted, start: Outcome, links: seq<Link>): (o: Outcome)
    requires AllJoin(start.p, links)
    ensures o.p.Keys == start.p.Keys
  {
    After(vals, start, links, |links|)
  }

  ghost function Start(t: Partition): Outcome {
    Outcome(t, [], [])
  }

  /** Every link so far is inside a cluster or recorded as a conflict. */
  ghost predicate Settled(o: Outcome, link: Link)
    requires Joins(o.p, link)
  {
    o.p[link.left] == o.p[link.right] || link in o.conflicts
  }

  lemma StepInvariant(vals: Trusted, t: Partition, o: Outcome, link: Link)
    requires Valid(o.p) && Coarser(t, o.p) && Joins(o.p, link)
    ensures var q := Step(vals, o, link);
            Valid(q.p) && Coarser(t, q.p) && Settled(q, link) && q.p.Keys == o.p.Keys
  {
    MergeValid(o.p, link.left, link.right);
  }

  lemma StepKeepsSettled(vals: Trusted, o: Outcome, link: Link, other: Link)
    requires Joins(o.p, link) && Joins(o.p, other) && Settled(o, other)
    ensures Joins(Step(vals, o, link).p, other) && Settled(Step(vals, o, link), other)
  {
  }

  /** With no assumption on the trusted rules: every candidate link ends inside one
      cluster or in the list of conflicts. */
  lemma {:induction false} EveryLinkSettled(vals: Trusted, t: Partition, links: seq<Link>, n: nat, i: nat)
    requires n <= |links| && AllJoin(t, links) && Valid(t) && i < n
    ensures Joins(t, links[i]) && Settled(After(vals, Start(t), links, n), links[i])
  {
    assert Joins(t, links[i]) && Joins(t, links[n - 1]);
    var before := After(vals, Start(t), links, n - 1);
    if i == n - 1 {
    } else {
      EveryLinkSettled(vals, t, links, n - 1, i);
      StepKeepsSettled(vals, before, links[n - 1], links[i]);
    }
  }

  lemma {:induction false} AfterValid(vals: Trusted, t: Partition, links: seq<Link>, n: nat)
    requires n <= |links| && AllJoin(t, links) && Valid(t)
    ensures Valid(After(vals, Start(t), links, n).p)
  {
    if n == 0 {
    } else {
      AfterValid(vals, t, links, n - 1);
      assert Joins(t, links[n - 1]);
      var o, link := After(vals, Start(t), links, n - 1), links[n - 1];
      MergeValid(o.p, link.left, link.right);
    }
  }

  lemma {:induction false} AfterInvariant(vals: Trusted, t: Partition, links: seq<Link>, n: nat)
    requires n <= |links| && AllJoin(t, links) && Valid(t)
    ensures var o := After(vals, Start(t), links, n); Valid(o.p) && Coarser(t, o.p)
  {
    if n == 0 {
    } else {
      AfterInvariant(vals, t, links, n - 1);
      assert Joins(t, links[n - 1]);
      StepInvariant(vals, t, After(vals, Start(t), links, n - 1), links[n - 1]);
    }
  }

  lemma {:induction false} AfterPrefix(vals: Trusted, t: Partition, links: seq<Link>, link: Link, n: nat)
    requires AllJoin(t, links) && AllJoin(t, links + [link]) && n <= |links|
    ensures After(vals, Start(t), links + [link], n) == After(vals, Start(t), links, n)
  {
    if n == 0 {
    } else {
      AfterPrefix(vals, t, links, link, n - 1);
    }
  }

  /** Running one more link is one more step. */
  lemma RunAppend(vals: Trusted, t: Partition, links: seq<Link>, link: Link)
    requires AllJoin(t, links) && Joins(t, link)
    ensures AllJoin(t, links + [link])
    ensures Run(vals, Start(t), links + [link]) == Step(vals, Run(vals, Start(t), links), link)
  {
    var more := links + [link];
    forall i {:trigger Joins(t, more[i])} | 0 <= i < |more| ensures Joins(t, more[i]) {
      assert i < |links| ==> Joins(t, links[i]);
    }
    AfterPrefix(vals, t, links, link, |links|);
    AfterNext(vals, t, more, |links|);
  }

  // ----- Links explain clusters, and count them -----

  lemma PairsAppend(links: seq<Link>, link: Link)
    ensures Pairs(links + [link]) == Pairs(links) + {(link.left, link.right)}
  {
    assert forall l :: l in links + [link] <==> l in links || l == link;
  }

  ghost predicate Explained(base: set<Pair>, o: Outcome) {
    Explains(base + Pairs(o.links), o.p)
  }

  lemma StartExplained(base: set<Pair>, t: Partition)
    requires Explains(base, t)
    ensures Explained(base, Start(t))
  {
    assert base + Pairs([]) == base;
  }

  lemma StepExplained(vals: Trusted, base: set<Pair>, o: Outcome, link: Link)
    requires Valid(o.p) && Explained(base, o) && Joins(o.p, link)
    ensures Explained(base, Step(vals, o, link))
  {
    if o.p[link.left] != o.p[link.right] && !Blocked(vals, o.p, link.left, link.right) {
      ExplainsMerge(base + Pairs(o.links), o.p, link.left, link.right);
      PairsAppend(o.links, link);
      assert base + Pairs(o.links) + {(link.left, link.right)} == base + Pairs(o.links + [link]);
    }
  }

  /** If `base` explains the trusted phase, adding the composite links explains the result. */
  lemma {:induction false} LinksExplain(vals: Trusted, base: set<Pair>, t: Partition, links: seq<Link>, n: nat)
    requires n <= |links| && AllJoin(t, links) && Valid(t) && Explains(base, t)
    ensures Explained(base, After(vals, Start(t), links, n))
  {
    if n == 0 {
      StartExplained(base, t);
    } else {
      LinksExplain(vals, base, t, links, n - 1);
      AfterValid(vals, t, links, n - 1);
      assert Joins(t, links[n - 1]);
      StepExplained(vals, base, After(vals, Start(t), links, n - 1), links[n - 1]);
    }
  }

  /** Every composite link removes exactly one cluster: the composite links form a forest. */
  lemma {:induction false} LinksCount(vals: Trusted, t: Partition, links: seq<Link>, n: nat)
    requires n <= |links| && AllJoin(t, links) && Valid(t)
    ensures var o := After(vals, Start(t), links, n); |Roots(o.p)| == |Roots(t)| - |o.links|
  {
    if n == 0 {
    } else {
      LinksCount(vals, t, links, n - 1);
      AfterValid(vals, t, links, n - 1);
      assert Joins(t, links[n - 1]);
      StepCounts(vals, After(vals, Start(t), links, n - 1), links[n - 1]);
    }
  }

  lemma StepCounts(vals: Trusted, o: Outcome, link: Link)
    requires Valid(o.p) && Joins(o.p, link)
    ensures var q := Step(vals, o, link); |Roots(q.p)| + |q.links| == |Roots(o.p)| + |o.links|
  {
    if o.p[link.left] != o.p[link.right] {
      MergeDropsOneRoot(o.p, link.left, link.right);
    }
  }

  // ----- When a conflict stays a conflict -----

  /** Sharing of trusted keys between trusted-phase clusters is transitive. */
  ghost predicate SharingTransitive(vals: Trusted, t: Partition) {
    forall a, b, c :: a in t && b in t && c in t && Shares(vals, t, a, b) && Shares(vals, t, b, c) ==>
      Shares(vals, t, a, c)
  }

  /** Different trusted-phase clusters share no trusted key. */
  ghost predicate Separated(vals: Trusted, t: Partition) {
    forall a, b :: a in t && b in t && Shares(vals, t, a, b) ==> t[a] == t[b]
  }

  /** The trusted-phase clusters inside one cluster of `p` that carry keys all share. */
  ghost predicate Cohesive(vals: Trusted, t: Partition, p: Partition)
    requires t.Keys == p.Keys
  {
    forall a, b :: a in t && b in t && p[a] == p[b] && Carries(vals, t, a) && Carries(vals, t, b) ==>
      Shares(vals, t, a, b)
  }

  /** Both sides of the link hold trusted-phase clusters that carry keys and do not share. */
  ghost predicate Divided(vals: Trusted, t: Partition, p: Partition, link: Link)
    requires t.Keys == p.Keys && Joins(p, link)
  {
    exists a, b :: DividedBy(vals, t, p, link, a, b)
  }

  ghost predicate DividedBy(vals: Trusted, t: Partition, p: Partition, link: Link, a: Key, b: Key)
    requires t.Keys == p.Keys && Joins(p, link)
  {
    a in t && b in t && p[a] == p[link.left] && p[b] == p[link.right] && Blocked(vals, t, a, b)
  }

  lemma DividedStaysApart(vals: Trusted, t: Partition, p: Partition, link: Link)
    requires t.Keys == p.Keys && Joins(p, link) && Cohesive(vals, t, p) && Divided(vals, t, p, link)
    ensures p[link.left] != p[link.right]
  {
    var a, b :| DividedBy(vals, t, p, link, a, b);
  }

  /** A blocked link divides: some member on each side carries keys, and they do not share. */
  lemma BlockedDivides(vals: Trusted, t: Partition, p: Partition, link: Link)
    requires Valid(t) && Coarser(t, p) && Joins(p, link) && Blocked(vals, p, link.left, link.right)
    ensures Divided(vals, t, p, link)
  {
    var j, u :| Holds(vals, p, p[link.left], j, u);
    var k, v :| Holds(vals, p, p[link.right], k, v);
    assert Holds(vals, t, t[j], j, u) && Holds(vals, t, t[k], k, v);
    if Shares(vals, t, j, k) {
      var j', k', w :| Holds(vals, t, t[j], j', w) && Holds(vals, t, t[k], k', w);
      assert Holds(vals, p, p[link.left], j', w) && Holds(vals, p, p[link.right], k', w);
      assert false;
    }
    assert DividedBy(vals, t, p, link, j, k);
  }

  lemma SharesSymmetric(vals: Trusted, t: Partition, a: Key, b: Key)
    requires a in t && b in t && Shares(vals, t, a, b)
    ensures Shares(vals, t, b, a)
  {
    var j, k, v :| Holds(vals, t, t[a], j, v) && Holds(vals, t, t[b], k, v);
  }

  lemma SharedInside(vals: Trusted, t: Partition, p: Partition, a: Key, b: Key) returns (j: Key, k: Key)
    requires Valid(t) && Coarser(t, p) && a in p && b in p && Shares(vals, p, a, b)
    ensures j in p && k in p && p[j] == p[a] && p[k] == p[b]
    ensures Carries(vals, t, j) && Carries(vals, t, k) && Shares(vals, t, j, k)
  {
    var v;
    j, k, v :| Holds(vals, p, p[a], j, v) && Holds(vals, p, p[b], k, v);
    assert Holds(vals, t, t[j], j, v) && Holds(vals, t, t[k], k, v);
  }

  /** Two carrying members on the two sides of a merge share a key. */
  lemma MergedSidesShare(vals: Trusted, t: Partition, p: Partition, link: Link, a: Key, b: Key)
    requires Valid(t) && Coarser(t, p) && Joins(p, link) && Cohesive(vals, t, p) && SharingTransitive(vals, t)
    requires !Blocked(vals, p, link.left, link.right)
    requires a in p && b in p && p[a] == p[link.left] && p[b] == p[link.right]
    requires Carries(vals, t, a) && Carries(vals, t, b)
    ensures Shares(vals, t, a, b)
  {
    var i, u :| Holds(vals, t, t[a], i, u);
    var l, w :| Holds(vals, t, t[b], l, w);
    assert Holds(vals, p, p[link.left], i, u) && Holds(vals, p, p[link.right], l, w);
    var j, k := SharedInside(vals, t, p, link.left, link.right);
    assert Shares(vals, t, a, j) && Shares(vals, t, j, k) && Shares(vals, t, k, b);
    assert Shares(vals, t, a, k);
  }

  lemma MergeCohesive(vals: Trusted, t: Partition, p: Partition, link: Link)
    requires Valid(t) && Coarser(t, p) && Joins(p, link) && Cohesive(vals, t, p) && SharingTransitive(vals, t)
    requires !Blocked(vals, p, link.left, link.right)
    ensures Cohesive(vals, t, Merge(p, link.left, link.right))
  {
    var q := Merge(p, link.left, link.right);
    forall a, b | a in t && b in t && q[a] == q[b] && Carries(vals, t, a) && Carries(vals, t, b)
      ensures Shares(vals, t, a, b)
    {
      if p[a] != p[b] {
        if p[a] == p[link.left] && p[b] == p[link.right] {
          MergedSidesShare(vals, t, p, link, a, b);
        } else {
          MergedSidesShare(vals, t, p, link, b, a);
          SharesSymmetric(vals, t, b, a);
        }
      }
    }
  }

  ghost predicate Apart(vals: Trusted, t: Partition, o: Outcome)
    requires t.Keys == o.p.Keys
  {
    forall c {:trigger Divided(vals, t, o.p, c)} :: c in o.conflicts ==> Joins(o.p, c) && Divided(vals, t, o.p, c)
  }

  lemma DividedPersists(vals: Trusted, t: Partition, p: Partition, q: Partition, link: Link)
    requires t.Keys == p.Keys && Coarser(p, q) && Joins(p, link) && Divided(vals, t, p, link)
    ensures Divided(vals, t, q, link)
  {
    var a, b :| DividedBy(vals, t, p, link, a, b);
    assert DividedBy(vals, t, q, link, a, b);
  }

  ghost predicate ConflictsJoin(o: Outcome) {
    forall c :: c in o.conflicts ==> Joins(o.p, c)
  }

  /** The state of a run when sharing is transitive. */
  ghost predicate Sound(vals: Trusted, t: Partition, o: Outcome) {
    Valid(o.p) && Coarser(t, o.p) && Cohesive(vals, t, o.p) && Apart(vals, t, o) && ConflictsJoin(o)
  }

  lemma StepApart(vals: Trusted, t: Partition, o: Outcome, link: Link)
    requires Valid(t) && SharingTransitive(vals, t) && Joins(o.p, link) && Sound(vals, t, o)
    ensures Sound(vals, t, Step(vals, o, link))
  {
    var q := Step(vals, o, link);
    StepInvariant(vals, t, o, link);
    if o.p[link.left] == o.p[link.right] {
    } else if Blocked(vals, o.p, link.left, link.right) {
      BlockedDivides(vals, t, o.p, link);
    } else {
      MergeCohesive(vals, t, o.p, link);
      forall c | c in q.conflicts ensures Divided(vals, t, q.p, c) {
        assert Divided(vals, t, o.p, c);
        DividedPersists(vals, t, o.p, q.p, c);
      }
    }
  }

  lemma StartApart(vals: Trusted, t: Partition)
    requires Valid(t)
    ensures Sound(vals, t, Start(t))
  {
    forall a, b | a in t && b in t && t[a] == t[b] && Carries(vals, t, a) ensures Shares(vals, t, a, b) {
      SharesWithin(vals, t, a, b);
    }
  }

  lemma {:induction false} AfterApart(vals: Trusted, t: Partition, links: seq<Link>, n: nat)
    requires n <= |links| && AllJoin(t, links) && Valid(t) && SharingTransitive(vals, t)
    ensures Sound(vals, t, After(vals, Start(t), links, n))
  {
    if n == 0 {
      StartApart(vals, t);
    } else {
      AfterApart(vals, t, links, n - 1);
      assert Joins(t, links[n - 1]);
      StepApart(vals, t, After(vals, Start(t), links, n - 1), links[n - 1]);
    }
  }

  /** Every candidate link is in exactly one place: inside a final cluster, or a conflict. */
  ghost predicate Exclusive(vals: Trusted, t: Partition, links: seq<Link>)
    requires AllJoin(t, links)
  {
    var o := Run(vals, Start(t), links);
    forall i {:trigger links[i]} :: 0 <= i < |links| ==>
      Joins(o.p, links[i]) && ((o.p[links[i].left] == o.p[links[i].right]) != (links[i] in o.conflicts))
  }

  lemma TransitiveExclusive(vals: Trusted, t: Partition, links: seq<Link>)
    requires AllJoin(t, links) && Valid(t) && SharingTransitive(vals, t)
    ensures Exclusive(vals, t, links)
  {
    var o := Run(vals, Start(t), links);
    AfterApart(vals, t, links, |links|);
    forall i {:trigger links[i]} | 0 <= i < |links|
      ensures Joins(o.p, links[i]) && ((o.p[links[i].left] == o.p[links[i].right]) != (links[i] in o.conflicts))
    {
      EveryLinkSettled(vals, t, links, |links|, i);
      if links[i] in o.conflicts {
        assert Divided(vals, t, o.p, links[i]);
        DividedStaysApart(vals, t, o.p, links[i]);
      }
    }
  }

  lemma SharesAfterMerge(vals: Trusted, t: Partition, a: Key, b: Key, c: Key)
    requires a in t && b in t && c in t && Shares(vals, t, b, c)
    ensures Shares(vals, Merge(t, a, b), b, c)
  {
    var j, k, v :| Holds(vals, t, t[b], j, v) && Holds(vals, t, t[c], k, v);
    var q := Merge(t, a, b);
    assert Holds(vals, q, q[b], j, v) && Holds(vals, q, q[c], k, v);
  }

  lemma AfterNext(vals: Trusted, t: Partition, links: seq<Link>, n: nat)
    requires n < |links| && AllJoin(t, links)
    ensures After(vals, Start(t), links, 0) == Start(t) && Joins(t, links[n])
    ensures After(vals, Start(t), links, n + 1) == Step(vals, After(vals, Start(t), links, n), links[n])
  {
    assert Joins(t, links[n]);
  }

  /** Recorded conflicts stay recorded. */
  lemma {:induction false} ConflictsStay(vals: Trusted, t: Partition, links: seq<Link>, m: nat, n: nat, link: Link)
    requires m <= n <= |links| && AllJoin(t, links) && link in After(vals, Start(t), links, m).conflicts
    ensures link in After(vals, Start(t), links, n).conflicts
    decreases n
  {
    if m == n {
    } else {
      ConflictsStay(vals, t, links, m, n - 1, link);
      AfterNext(vals, t, links, n - 1);
    }
  }

  /** The other direction: three clusters that share in a chain but not end to end
      give a conflict that later merges undo. */
  lemma ChainUndoesConflict(vals: Trusted, t: Partition, a: Key, b: Key, c: Key)
    requires Valid(t) && a in t && b in t && c in t
    requires Shares(vals, t, a, b) && Shares(vals, t, b, c) && !Shares(vals, t, a, c)
    ensures var links := [Link(a, c, ""), Link(a, b, ""), Link(b, c, "")];
            AllJoin(t, links) && !Exclusive(vals, t, links)
  {
    var links := [Link(a, c, ""), Link(a, b, ""), Link(b, c, "")];
    ChainIsApart(vals, t, a, b, c);
    AfterNext(vals, t, links, 0);
    AfterNext(vals, t, links, 1);
    AfterNext(vals, t, links, 2);
    var o1 := After(vals, Start(t), links, 1);
    assert o1.p == t && o1.conflicts == [links[0]];
    var o2 := After(vals, Start(t), links, 2);
    assert !Blocked(vals, t, links[1].left, links[1].right);
    assert o2.p == Merge(t, a, b) && o2.p[a] == o2.p[b] && o2.conflicts == [links[0]];
    SharesAfterMerge(vals, t, a, b, c);
    var o3 := After(vals, Start(t), links, 3);
    assert !Blocked(vals, o2.p, links[2].left, links[2].right);
    assert o3.p[a] == o3.p[b] == o3.p[c] && links[0] in o3.conflicts;
  }

  lemma SharesFromSameCluster(vals: Trusted, t: Partition, b: Key, a: Key, c: Key)
    requires a in t && b in t && c in t && t[a] == t[b] && Shares(vals, t, b, c)
    ensures Shares(vals, t, a, c)
  {
    var j, k, v :| Holds(vals, t, t[b], j, v) && Holds(vals, t, t[c], k, v);
  }

  lemma SharesWithin(vals: Trusted, t: Partition, a: Key, b: Key)
    requires a in t && b in t && t[a] == t[b] && Carries(vals, t, a)
    ensures Shares(vals, t, a, b)
  {
    var k, v :| Holds(vals, t, t[a], k, v);
  }

  lemma ChainIsApart(vals: Trusted, t: Partition, a: Key, b: Key, c: Key)
    requires a in t && b in t && c in t
    requires Shares(vals, t, a, b) && Shares(vals, t, b, c) && !Shares(vals, t, a, c)
    ensures t[a] != t[b] && t[a] != t[c] && Blocked(vals, t, a, c)
  {
    var j, k, v :| Holds(vals, t, t[a], j, v) && Holds(vals, t, t[b], k, v);
    var l, m, w :| Holds(vals, t, t[b], l, w) && Holds(vals, t, t[c], m, w);
    if t[a] == t[b] {
      SharesFromSameCluster(vals, t, b, a, c);
    }
    if t[a] == t[c] {
      SharesWithin(vals, t, a, c);
    }
  }

  /** A recorded conflict is final for every possible list of composite links exactly
      when sharing between the trusted-phase clusters is transitive. */
  lemma ExclusiveIffSharingTransitive(vals: Trusted, t: Partition)
    requires Valid(t)
    ensures (forall links :: AllJoin(t, links) ==> Exclusive(vals, t, links)) <==> SharingTransitive(vals, t)
  {
    if SharingTransitive(vals, t) {
      forall links | AllJoin(t, links) ensures Exclusive(vals, t, links) {
        TransitiveExclusive(vals, t, links);
      }
    } else {
      var a, b, c :| a in t && b in t && c in t && Shares(vals, t, a, b) && Shares(vals, t, b, c) && !Shares(vals, t, a, c);
      ChainUndoesConflict(vals, t, a, b, c);
    }
  }

  /** Trusted-phase clusters that carry keys and are in one cluster of `p` are one cluster. */
  ghost predicate OneCarrier(vals: Trusted, t: Partition, p: Partition)
    requires t.Keys == p.Keys
  {
    forall a, b :: a in t && b in t && p[a] == p[b] && Carries(vals, t, a) && Carries(vals, t, b) ==> t[a] == t[b]
  }

  ghost predicate OneCarrierPerCluster(vals: Trusted, t: Partition, links: seq<Link>)
    requires AllJoin(t, links)
  {
    OneCarrier(vals, t, Run(vals, Start(t), links).p)
  }

  lemma CohesiveOneCarrier(vals: Trusted, t: Partition, p: Partition)
    requires t.Keys == p.Keys && Separated(vals, t) && Cohesive(vals, t, p)
    ensures OneCarrier(vals, t, p)
  {
  }

  lemma SeparatedIsTransitive(vals: Trusted, t: Partition)
    requires Separated(vals, t)
    ensures SharingTransitive(vals, t)
  {
  }

  lemma SeparatedOneCarrier(vals: Trusted, t: Partition, links: seq<Link>)
    requires Valid(t) && Separated(vals, t) && AllJoin(t, links)
    ensures OneCarrierPerCluster(vals, t, links)
  {
    SeparatedIsTransitive(vals, t);
    AfterApart(vals, t, links, |links|);
    CohesiveOneCarrier(vals, t, Run(vals, Start(t), links).p);
  }

  /** No composite run joins two carrying trusted-phase clusters exactly when they share no key. */
  lemma OneCarrierIffSeparated(vals: Trusted, t: Partition)
    requires Valid(t)
    ensures (forall links :: AllJoin(t, links) ==> OneCarrierPerCluster(vals, t, links)) <==> Separated(vals, t)
  {
    if Separated(vals, t) {
      forall links | AllJoin(t, links) ensures OneCarrierPerCluster(vals, t, links) {
        SeparatedOneCarrier(vals, t, links);
      }
    } else {
      var a, b :| a in t && b in t && Shares(vals, t, a, b) && t[a] != t[b];
      SharedPairJoined(vals, t, a, b);
    }
  }

  lemma SharedPairJoined(vals: Trusted, t: Partition, a: Key, b: Key)
    requires Valid(t) && a in t && b in t && Shares(vals, t, a, b) && t[a] != t[b]
    ensures var links := [Link(a, b, "")];
            AllJoin(t, links) && !OneCarrierPerCluster(vals, t, links)
  {
    var links := [Link(a, b, "")];
    assert After(vals, Start(t), links, 1) == Step(vals, Start(t), links[0]);
    var p := Run(vals, Start(t), links).p;
    assert p[a] == p[b];
    var j, k, v :| Holds(vals, t, t[a], j, v) && Holds(vals, t, t[b], k, v);
  }
}
