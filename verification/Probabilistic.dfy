/** The clustering loop of the probabilistic matcher. Candidates are taken in
    descending probability; pairs at or above `autoMatch` are merged unless the
    clusters they would join carry different trusted IDs. The specification works
    on partitions alone; the method keeps, as the program does, a union-find forest
    and per-root caches of trusted IDs and sizes. */
module Probabilistic {
  import opened Keys
  import opened Partitions
  import opened Collections
  import opened Forests

  datatype Scored = Scored(left: Key, right: Key, probability: real)
  datatype Thresholds = Thresholds(reviewLow: real, autoMatch: real)
  datatype Status = AutoMatch | Review | NoMatch | TrustedIdConflict
  datatype Impact = Impact(left: nat, right: nat, merged: nat)
  datatype Candidate = Candidate(pair: Scored, status: Status, impact: Impact)

  /** The normalized trusted ID of every record; blank is the empty string. */
  type Ids = map<Key, string>

  predicate HigherFirst(a: Scored, b: Scored) {
    a.probability >= b.probability
  }

  ghost predicate Known(ids: Ids, s: Scored) {
    s.left in ids && s.right in ids
  }

  ghost predicate AllKnown(ids: Ids, cs: seq<Scored>) {
    forall i :: 0 <= i < |cs| ==> Known(ids, cs[i])
  }

  // ----- Trusted IDs of clusters -----

  ghost predicate Bears(ids: Ids, p: Partition, root: Key, k: Key) {
    k in p && k in ids && p[k] == root && ids[k] != ""
  }

  ghost function IdsOf(ids: Ids, p: Partition, root: Key): set<string> {
    set k | k in p && Bears(ids, p, root, k) :: ids[k]
  }

  /** The check of the program: both clusters carry IDs, and none in common. */
  ghost predicate Conflicting(ids: Ids, p: Partition, a: Key, b: Key)
    requires a in p && b in p
  {
    IdsOf(ids, p, p[a]) != {} && IdsOf(ids, p, p[b]) != {} && IdsOf(ids, p, p[a]) !! IdsOf(ids, p, p[b])
  }

  /** The clusters of `a` and `b` hold two records with different non-blank IDs. */
  ghost predicate Opposed(ids: Ids, p: Partition, a: Key, b: Key)
    requires a in p && b in p
  {
    exists j, k :: Bears(ids, p, p[a], j) && Bears(ids, p, p[b], k) && ids[j] != ids[k]
  }

  /** No cluster holds two different non-blank IDs. */
  ghost predicate OneId(ids: Ids, p: Partition) {
    forall j, k, root :: Bears(ids, p, root, j) && Bears(ids, p, root, k) ==> ids[j] == ids[k]
  }

  lemma OnlyId(ids: Ids, p: Partition, root: Key, j: Key)
    requires OneId(ids, p) && Bears(ids, p, root, j)
    ensures IdsOf(ids, p, root) == {ids[j]}
  {
    assert ids[j] in IdsOf(ids, p, root);
    forall v | v in IdsOf(ids, p, root) ensures v == ids[j] {
      var i :| i in p && Bears(ids, p, root, i) && ids[i] == v;
    }
  }

  /** While clusters carry at most one ID, the check finds exactly the opposed pairs. */
  lemma ConflictingIsOpposed(ids: Ids, p: Partition, a: Key, b: Key)
    requires OneId(ids, p) && a in p && b in p
    ensures Conflicting(ids, p, a, b) <==> Opposed(ids, p, a, b)
  {
    if Conflicting(ids, p, a, b) {
      var u, v :| u in IdsOf(ids, p, p[a]) && v in IdsOf(ids, p, p[b]);
      var j :| j in p && Bears(ids, p, p[a], j) && ids[j] == u;
      var k :| k in p && Bears(ids, p, p[b], k) && ids[k] == v;
    }
    if Opposed(ids, p, a, b) {
      var j, k :| Bears(ids, p, p[a], j) && Bears(ids, p, p[b], k) && ids[j] != ids[k];
      OnlyId(ids, p, p[a], j);
      OnlyId(ids, p, p[b], k);
    }
  }

  // ----- The loop on partitions -----

  ghost function StatusAt(ids: Ids, t: Thresholds, p: Partition, s: Scored): Status
    requires s.left in p && s.right in p
  {
    if Conflicting(ids, p, s.left, s.right) then TrustedIdConflict
    else if s.probability >= t.autoMatch then AutoMatch
    else if s.probability >= t.reviewLow then Review
    else NoMatch
  }

  ghost function ImpactAt(p: Partition, s: Scored): Impact
    requires s.left in p && s.right in p
  {
    var l, r := |Cluster(p, p[s.left])|, |Cluster(p, p[s.right])|;
    Impact(l, r, if p[s.left] == p[s.right] then l else l + r)
  }

  ghost function Step(ids: Ids, t: Thresholds, p: Partition, s: Scored): Partition
    requires s.left in p && s.right in p
  {
    if StatusAt(ids, t, p, s) == AutoMatch then Merge(p, s.left, s.right) else p
  }

  /** The clusters after the first `n` candidates. */
  ghost function After(ids: Ids, t: Thresholds, cs: seq<Scored>, n: nat): (p: Partition)
    requires n <= |cs| && AllKnown(ids, cs)
    ensures p.Keys == ids.Keys
  {
    if n == 0 then Discrete(ids.Keys)
    else
      assert Known(ids, cs[n - 1]);
      Step(ids, t, After(ids, t, cs, n - 1), cs[n - 1])
  }

  ghost function Final(ids: Ids, t: Thresholds, cs: seq<Scored>): (p: Partition)
    requires AllKnown(ids, cs)
    ensures p.Keys == ids.Keys
  {
    After(ids, t, cs, |cs|)
  }

  ghost function CandidateAt(ids: Ids, t: Thresholds, cs: seq<Scored>, i: nat): Candidate
    requires i < |cs| && AllKnown(ids, cs)
  {
    assert Known(ids, cs[i]);
    var p := After(ids, t, cs, i);
    Candidate(cs[i], StatusAt(ids, t, p, cs[i]), ImpactAt(p, cs[i]))
  }

  lemma StepKeepsOneId(ids: Ids, t: Thresholds, p: Partition, s: Scored)
    requires OneId(ids, p) && s.left in p && s.right in p
    ensures OneId(ids, Step(ids, t, p, s))
  {
    var q := Step(ids, t, p, s);
    if StatusAt(ids, t, p, s) == AutoMatch {
      ConflictingIsOpposed(ids, p, s.left, s.right);
      forall j, k, root | Bears(ids, q, root, j) && Bears(ids, q, root, k) ensures ids[j] == ids[k] {
        assert Bears(ids, p, p[j], j) && Bears(ids, p, p[k], k);
      }
    }
  }

  /** At every step the partition is valid and no cluster carries two different IDs. */
  lemma {:induction false} AfterInvariant(ids: Ids, t: Thresholds, cs: seq<Scored>, n: nat)
    requires n <= |cs| && AllKnown(ids, cs)
    ensures Valid(After(ids, t, cs, n)) && OneId(ids, After(ids, t, cs, n))
  {
    if n == 0 {
      DiscreteExplained(ids.Keys);
    } else {
      AfterInvariant(ids, t, cs, n - 1);
      assert Known(ids, cs[n - 1]);
      var p := After(ids, t, cs, n - 1);
      StepKeepsOneId(ids, t, p, cs[n - 1]);
      MergeValid(p, cs[n - 1].left, cs[n - 1].right);
    }
  }

  // ----- Later steps only coarsen -----

  lemma StepCoarsens(ids: Ids, t: Thresholds, o: Partition, p: Partition, s: Scored)
    requires Coarser(o, p) && s.left in p && s.right in p
    ensures Coarser(o, Step(ids, t, p, s))
  {
  }

  lemma {:induction false} AfterCoarsens(ids: Ids, t: Thresholds, cs: seq<Scored>, n: nat, m: nat)
    requires n <= m <= |cs| && AllKnown(ids, cs)
    ensures Coarser(After(ids, t, cs, n), After(ids, t, cs, m))
    decreases m
  {
    if n < m {
      AfterCoarsens(ids, t, cs, n, m - 1);
      assert Known(ids, cs[m - 1]);
      StepCoarsens(ids, t, After(ids, t, cs, n), After(ids, t, cs, m - 1), cs[m - 1]);
    }
  }

  lemma OpposedPersists(ids: Ids, p: Partition, q: Partition, a: Key, b: Key)
    requires Coarser(p, q) && a in p && b in p && Opposed(ids, p, a, b)
    ensures Opposed(ids, q, a, b)
  {
    var j, k :| Bears(ids, p, p[a], j) && Bears(ids, p, p[b], k) && ids[j] != ids[k];
    assert Bears(ids, q, q[a], j) && Bears(ids, q, q[b], k);
  }

  lemma StepBelow(ids: Ids, t: Thresholds, p: Partition, s: Scored)
    requires s.left in p && s.right in p && s.probability < t.autoMatch
    ensures Step(ids, t, p, s) == p
  {
  }

  /** In descending order, nothing is merged once a candidate is below `autoMatch`. */
  lemma SettledBelow(ids: Ids, t: Thresholds, cs: seq<Scored>, n: nat, m: nat)
    requires n <= m <= |cs| && AllKnown(ids, cs) && Sorted(cs, HigherFirst)
    requires n < |cs| ==> cs[n].probability < t.autoMatch
    ensures After(ids, t, cs, m) == After(ids, t, cs, n)
  {
    forall i | n <= i < |cs| ensures cs[i].probability < t.autoMatch {
      assert i == n || HigherFirst(cs[n], cs[i]);
    }
    NothingMerged(ids, t, cs, n, m);
  }

  lemma {:induction false} NothingMerged(ids: Ids, t: Thresholds, cs: seq<Scored>, n: nat, m: nat)
    requires n <= m <= |cs| && AllKnown(ids, cs)
    requires forall i :: n <= i < m ==> cs[i].probability < t.autoMatch
    ensures After(ids, t, cs, m) == After(ids, t, cs, n)
    decreases m
  {
    if n < m {
      NothingMerged(ids, t, cs, n, m - 1);
      assert Known(ids, cs[m - 1]);
      StepBelow(ids, t, After(ids, t, cs, m - 1), cs[m - 1]);
    }
  }

  // ----- What a candidate reports, in terms of the final clusters alone -----

  ghost function StatusByFinal(ids: Ids, t: Thresholds, final: Partition, s: Scored): Status
    requires s.left in final && s.right in final
  {
    if Opposed(ids, final, s.left, s.right) then TrustedIdConflict
    else if s.probability >= t.autoMatch then AutoMatch
    else if s.probability >= t.reviewLow then Review
    else NoMatch
  }

  /** One candidate: `p` are the clusters it met, `q` the clusters it left, `final` the last ones. */
  lemma StatusCase(ids: Ids, t: Thresholds, p: Partition, final: Partition, s: Scored)
    requires s.left in p && s.right in p && OneId(ids, p) && OneId(ids, final)
    requires Coarser(p, final) && Coarser(Step(ids, t, p, s), final)
    requires s.probability < t.autoMatch ==> final == p
    ensures StatusAt(ids, t, p, s) == StatusByFinal(ids, t, final, s)
  {
    var q := Step(ids, t, p, s);
    ConflictingIsOpposed(ids, p, s.left, s.right);
    if Opposed(ids, p, s.left, s.right) {
      OpposedPersists(ids, p, final, s.left, s.right);
    } else if s.probability >= t.autoMatch {
      assert q[s.left] == q[s.right];
      assert final[s.left] == final[s.right];
    }
  }

  /** The status decided in the middle of the loop is the one the final clusters give. */
  lemma StatusIsFinal(ids: Ids, t: Thresholds, cs: seq<Scored>, i: nat)
    requires i < |cs| && AllKnown(ids, cs) && Sorted(cs, HigherFirst)
    ensures Known(ids, cs[i])
    ensures CandidateAt(ids, t, cs, i).status == StatusByFinal(ids, t, Final(ids, t, cs), cs[i])
  {
    assert Known(ids, cs[i]);
    AfterInvariant(ids, t, cs, i);
    AfterInvariant(ids, t, cs, |cs|);
    AfterCoarsens(ids, t, cs, i, |cs|);
    AfterCoarsens(ids, t, cs, i + 1, |cs|);
    if cs[i].probability < t.autoMatch {
      SettledBelow(ids, t, cs, i, |cs|);
    }
    StatusCase(ids, t, After(ids, t, cs, i), Final(ids, t, cs), cs[i]);
  }

  /** Every pair at or above `autoMatch` is in one final cluster or a conflict, never both. */
  lemma MergedOrConflict(ids: Ids, t: Thresholds, cs: seq<Scored>, i: nat)
    requires i < |cs| && AllKnown(ids, cs) && Sorted(cs, HigherFirst)
    requires cs[i].probability >= t.autoMatch
    ensures Known(ids, cs[i])
    ensures var final := Final(ids, t, cs);
            (final[cs[i].left] == final[cs[i].right]) != (CandidateAt(ids, t, cs, i).status == TrustedIdConflict)
  {
    StatusIsFinal(ids, t, cs, i);
    var final, a, b := Final(ids, t, cs), cs[i].left, cs[i].right;
    AfterInvariant(ids, t, cs, |cs|);
    AfterCoarsens(ids, t, cs, i + 1, |cs|);
    if !Opposed(ids, final, a, b) {
      assert CandidateAt(ids, t, cs, i).status == AutoMatch;
      var q := After(ids, t, cs, i + 1);
      assert q[a] == q[b];
    }
  }

  /** A candidate below `autoMatch` reports the sizes of the final clusters. */
  lemma ImpactIsFinal(ids: Ids, t: Thresholds, cs: seq<Scored>, i: nat)
    requires i < |cs| && AllKnown(ids, cs) && Sorted(cs, HigherFirst)
    requires cs[i].probability < t.autoMatch
    ensures Known(ids, cs[i])
    ensures var final, impact := Final(ids, t, cs), CandidateAt(ids, t, cs, i).impact;
            impact.left == |Cluster(final, final[cs[i].left])| && impact.right == |Cluster(final, final[cs[i].right])|
  {
    assert Known(ids, cs[i]);
    SettledBelow(ids, t, cs, i, |cs|);
  }

  /** An automatic match reports as its merged size the size of the cluster it leaves behind. */
  lemma MergedSizeIsReached(ids: Ids, t: Thresholds, cs: seq<Scored>, i: nat)
    requires i < |cs| && AllKnown(ids, cs) && CandidateAt(ids, t, cs, i).status == AutoMatch
    ensures Known(ids, cs[i])
    ensures var after := After(ids, t, cs, i + 1);
            after[cs[i].left] == after[cs[i].right] &&
            CandidateAt(ids, t, cs, i).impact.merged == |Cluster(after, after[cs[i].left])|
  {
    assert Known(ids, cs[i]);
    var p, a, b := After(ids, t, cs, i), cs[i].left, cs[i].right;
    AfterInvariant(ids, t, cs, i);
    assert Rooted(p, a) && Rooted(p, b);
    if p[a] == p[b] {
      MergeWithinCluster(p, a, b);
    } else {
      ClusterMerge(p, a, b, Least(p[a], p[b]));
    }
  }

  // ----- What the final clusters are -----

  ghost function StrongPairs(t: Thresholds, cs: seq<Scored>): set<Pair> {
    set s | s in cs && s.probability >= t.autoMatch :: (s.left, s.right)
  }

  /** The pairs reported as automatic matches among the first `n` candidates. */
  ghost function MergedPairs(ids: Ids, t: Thresholds, cs: seq<Scored>, n: nat): set<Pair>
    requires n <= |cs| && AllKnown(ids, cs)
  {
    if n == 0 then {}
    else
      var before := MergedPairs(ids, t, cs, n - 1);
      if CandidateAt(ids, t, cs, n - 1).status == AutoMatch then before + {(cs[n - 1].left, cs[n - 1].right)}
      else before
  }

  lemma MergedNext(ids: Ids, t: Thresholds, cs: seq<Scored>, n: nat, reported: Candidate, before: set<Pair>)
    requires n < |cs| && AllKnown(ids, cs) && reported == CandidateAt(ids, t, cs, n) && before == MergedPairs(ids, t, cs, n)
    ensures reported.pair == cs[n]
    ensures MergedPairs(ids, t, cs, n + 1) ==
            before + if reported.status == AutoMatch then {(reported.pair.left, reported.pair.right)} else {}
  {
  }

  lemma StepExplained(ids: Ids, t: Thresholds, links: set<Pair>, p: Partition, s: Scored)
    requires Valid(p) && Explains(links, p) && s.left in p && s.right in p
    ensures Explains(if StatusAt(ids, t, p, s) == AutoMatch then links + {(s.left, s.right)} else links,
                     Step(ids, t, p, s))
  {
    if StatusAt(ids, t, p, s) == AutoMatch {
      ExplainsMerge(links, p, s.left, s.right);
    }
  }

  /** The clusters are exactly the components of the pairs reported as automatic matches. */
  lemma {:induction false} AutoMatchesExplain(ids: Ids, t: Thresholds, cs: seq<Scored>, n: nat)
    requires n <= |cs| && AllKnown(ids, cs)
    ensures Explains(MergedPairs(ids, t, cs, n), After(ids, t, cs, n))
  {
    if n == 0 {
      DiscreteExplained(ids.Keys);
    } else {
      AutoMatchesExplain(ids, t, cs, n - 1);
      AfterInvariant(ids, t, cs, n - 1);
      assert Known(ids, cs[n - 1]);
      StepExplained(ids, t, MergedPairs(ids, t, cs, n - 1), After(ids, t, cs, n - 1), cs[n - 1]);
    }
  }

  lemma {:induction false} MergedPairsStrong(ids: Ids, t: Thresholds, cs: seq<Scored>, n: nat)
    requires n <= |cs| && AllKnown(ids, cs)
    ensures MergedPairs(ids, t, cs, n) <= StrongPairs(t, cs)
  {
    if n == 0 {
    } else {
      MergedPairsStrong(ids, t, cs, n - 1);
      assert cs[n - 1] in cs;
    }
  }

  lemma {:induction false} MergedPairsHold(ids: Ids, t: Thresholds, cs: seq<Scored>, n: nat, i: nat)
    requires i < n <= |cs| && AllKnown(ids, cs) && CandidateAt(ids, t, cs, i).status == AutoMatch
    ensures (cs[i].left, cs[i].right) in MergedPairs(ids, t, cs, n)
  {
    if i < n - 1 {
      MergedPairsHold(ids, t, cs, n - 1, i);
    }
  }

  /** No component of the strong pairs holds two different non-blank IDs. */
  ghost predicate ComponentsAgree(ids: Ids, links: set<Pair>) {
    forall j, k :: j in ids && k in ids && ids[j] != "" && ids[k] != "" && Connected(links, j, k) ==> ids[j] == ids[k]
  }

  lemma NoConflictWhenAgreeing(ids: Ids, t: Thresholds, cs: seq<Scored>, i: nat)
    requires i < |cs| && AllKnown(ids, cs) && cs[i].probability >= t.autoMatch
    requires ComponentsAgree(ids, StrongPairs(t, cs))
    ensures CandidateAt(ids, t, cs, i).status == AutoMatch
  {
    var p, strong, s := After(ids, t, cs, i), StrongPairs(t, cs), cs[i];
    assert Known(ids, s);
    AfterInvariant(ids, t, cs, i);
    ConflictingIsOpposed(ids, p, s.left, s.right);
    if Opposed(ids, p, s.left, s.right) {
      var j, k :| Bears(ids, p, p[s.left], j) && Bears(ids, p, p[s.right], k) && ids[j] != ids[k];
      AutoMatchesExplain(ids, t, cs, i);
      MergedPairsStrong(ids, t, cs, i);
      ConnectedMono(MergedPairs(ids, t, cs, i), strong, j, s.left);
      ConnectedMono(MergedPairs(ids, t, cs, i), strong, s.right, k);
      assert (s.left, s.right) in strong;
      ConnectedLink(strong, s.left, s.right);
      ConnectedTrans(strong, j, s.left, s.right);
      ConnectedTrans(strong, j, s.right, k);
      assert false;
    }
  }

  /** The final clusters are the components of the pairs at or above `autoMatch` exactly
      when no component holds two different non-blank IDs. */
  lemma ComponentsExactlyWhenAgreeing(ids: Ids, t: Thresholds, cs: seq<Scored>)
    requires AllKnown(ids, cs)
    ensures Explains(StrongPairs(t, cs), Final(ids, t, cs)) <==> ComponentsAgree(ids, StrongPairs(t, cs))
  {
    var strong, final := StrongPairs(t, cs), Final(ids, t, cs);
    if Explains(strong, final) {
      AfterInvariant(ids, t, cs, |cs|);
      forall j, k | j in ids && k in ids && ids[j] != "" && ids[k] != "" && Connected(strong, j, k)
        ensures ids[j] == ids[k]
      {
        assert Bears(ids, final, final[j], j) && Bears(ids, final, final[j], k);
      }
    }
    if ComponentsAgree(ids, strong) {
      AutoMatchesExplain(ids, t, cs, |cs|);
      MergedPairsStrong(ids, t, cs, |cs|);
      forall x | x in strong ensures x in MergedPairs(ids, t, cs, |cs|) {
        var s :| s in cs && s.probability >= t.autoMatch && x == (s.left, s.right);
        var i :| 0 <= i < |cs| && cs[i] == s;
        NoConflictWhenAgreeing(ids, t, cs, i);
        MergedPairsHold(ids, t, cs, |cs|, i);
      }
      assert MergedPairs(ids, t, cs, |cs|) == strong;
    }
  }

  /** So without opposed IDs the result does not depend on the order of the candidates. */
  lemma OrderIrrelevantWhenAgreeing(ids: Ids, t: Thresholds, cs: seq<Scored>, ds: seq<Scored>)
    requires AllKnown(ids, cs) && multiset(cs) == multiset(ds)
    requires ComponentsAgree(ids, StrongPairs(t, cs))
    ensures AllKnown(ids, ds) && Final(ids, t, cs) == Final(ids, t, ds)
  {
    SameMembers(cs, ds);
    forall i | 0 <= i < |ds| ensures Known(ids, ds[i]) {
      assert ds[i] in cs;
    }
    assert StrongPairs(t, cs) == StrongPairs(t, ds);
    ComponentsExactlyWhenAgreeing(ids, t, cs);
    ComponentsExactlyWhenAgreeing(ids, t, ds);
    AfterInvariant(ids, t, cs, |cs|);
    AfterInvariant(ids, t, ds, |ds|);
    SameLinksSamePartition(StrongPairs(t, cs), Final(ids, t, cs), Final(ids, t, ds));
  }

  // ----- Raising the threshold -----

  lemma StepAbove(ids: Ids, low: Thresholds, high: Thresholds, p: Partition, s: Scored)
    requires s.left in p && s.right in p && low.autoMatch <= high.autoMatch <= s.probability
    ensures Step(ids, low, p, s) == Step(ids, high, p, s)
  {
  }

  lemma {:induction false} SamePrefixAbove(ids: Ids, low: Thresholds, high: Thresholds, cs: seq<Scored>, n: nat)
    requires n <= |cs| && AllKnown(ids, cs) && low.autoMatch <= high.autoMatch
    requires forall i :: 0 <= i < n ==> cs[i].probability >= high.autoMatch
    ensures After(ids, low, cs, n) == After(ids, high, cs, n)
  {
    if n == 0 {
    } else {
      SamePrefixAbove(ids, low, high, cs, n - 1);
      assert Known(ids, cs[n - 1]);
      StepAbove(ids, low, high, After(ids, low, cs, n - 1), cs[n - 1]);
    }
  }

  ghost function CountAbove(cs: seq<Scored>, bound: real, n: nat): (m: nat)
    requires n <= |cs|
    ensures n <= m <= |cs| && (m < |cs| ==> cs[m].probability < bound)
    ensures forall i :: n <= i < m ==> cs[i].probability >= bound
    decreases |cs| - n
  {
    if n < |cs| && cs[n].probability >= bound then CountAbove(cs, bound, n + 1) else n
  }

  /** A higher `autoMatch` refines the final clusters. */
  lemma RaisingThresholdRefines(ids: Ids, low: Thresholds, high: Thresholds, cs: seq<Scored>)
    requires AllKnown(ids, cs) && Sorted(cs, HigherFirst) && low.autoMatch <= high.autoMatch
    ensures Coarser(Final(ids, high, cs), Final(ids, low, cs))
  {
    var n := CountAbove(cs, high.autoMatch, 0);
    SamePrefixAbove(ids, low, high, cs, n);
    SettledBelow(ids, high, cs, n, |cs|);
    AfterCoarsens(ids, low, cs, n, |cs|);
  }

  /** Lowering `autoMatch` never lifts a conflict. */
  lemma LoweringThresholdKeepsConflicts(ids: Ids, low: Thresholds, high: Thresholds, cs: seq<Scored>, i: nat)
    requires AllKnown(ids, cs) && Sorted(cs, HigherFirst) && low.autoMatch <= high.autoMatch && i < |cs|
    ensures CandidateAt(ids, high, cs, i).status == TrustedIdConflict ==>
            CandidateAt(ids, low, cs, i).status == TrustedIdConflict
  {
    StatusIsFinal(ids, low, cs, i);
    StatusIsFinal(ids, high, cs, i);
    OpposedKept(ids, low, high, cs, cs[i].left, cs[i].right);
  }

  lemma OpposedKept(ids: Ids, low: Thresholds, high: Thresholds, cs: seq<Scored>, a: Key, b: Key)
    requires AllKnown(ids, cs) && Sorted(cs, HigherFirst) && low.autoMatch <= high.autoMatch
    requires a in ids && b in ids
    ensures Opposed(ids, Final(ids, high, cs), a, b) ==> Opposed(ids, Final(ids, low, cs), a, b)
  {
    RaisingThresholdRefines(ids, low, high, cs);
    if Opposed(ids, Final(ids, high, cs), a, b) {
      OpposedPersists(ids, Final(ids, high, cs), Final(ids, low, cs), a, b);
    }
  }

  // ----- The program's loop: forest, caches of IDs and sizes -----

  ghost predicate CacheAt(ids: Ids, p: Partition, trusted: map<Key, set<string>>, sizes: map<Key, nat>, root: Key) {
    && root in trusted && trusted[root] == IdsOf(ids, p, root)
    && root in sizes && sizes[root] == |Cluster(p, root)|
  }

  /** At every root the caches hold the IDs and the size of the real cluster. */
  ghost predicate CachesExact(ids: Ids, p: Partition, trusted: map<Key, set<string>>, sizes: map<Key, nat>) {
    forall root {:trigger CacheAt(ids, p, trusted, sizes, root)} :: root in p && p[root] == root ==>
      CacheAt(ids, p, trusted, sizes, root)
  }

  lemma InitialCaches(ids: Ids, trusted: map<Key, set<string>>, sizes: map<Key, nat>)
    requires forall k :: k in ids ==> k in trusted && trusted[k] == if ids[k] == "" then {} else {ids[k]}
    requires forall k :: k in ids ==> k in sizes && sizes[k] == 1
    ensures CachesExact(ids, Discrete(ids.Keys), trusted, sizes)
  {
    var p := Discrete(ids.Keys);
    forall k | k in p ensures CacheAt(ids, p, trusted, sizes, k) {
      assert Cluster(p, k) == {k};
      assert ids[k] != "" ==> Bears(ids, p, k, k);
      assert IdsOf(ids, p, k) == if ids[k] == "" then {} else {ids[k]};
    }
  }

  lemma IdsOfMerge(ids: Ids, p: Partition, a: Key, b: Key, root: Key)
    requires Valid(p) && a in p && b in p && root in p && p[root] == root
    ensures var winner := Least(p[a], p[b]);
            IdsOf(ids, Merge(p, a, b), root) ==
            if root == winner then IdsOf(ids, p, p[a]) + IdsOf(ids, p, p[b])
            else if root == p[a] || root == p[b] then {}
            else IdsOf(ids, p, root)
  {
    var q, winner := Merge(p, a, b), Least(p[a], p[b]);
    assert forall k :: Bears(ids, q, root, k) <==>
      if root == winner then Bears(ids, p, p[a], k) || Bears(ids, p, p[b], k)
      else root != p[a] && root != p[b] && Bears(ids, p, root, k);
  }

  lemma ClusterMerge(p: Partition, a: Key, b: Key, root: Key)
    requires Valid(p) && a in p && b in p && p[a] != p[b] && root in p && p[root] == root
    ensures var winner := Least(p[a], p[b]);
            |Cluster(Merge(p, a, b), root)| ==
            if root == winner then |Cluster(p, p[a])| + |Cluster(p, p[b])|
            else if root == p[a] || root == p[b] then 0
            else |Cluster(p, root)|
  {
    var q, winner := Merge(p, a, b), Least(p[a], p[b]);
    if root == winner {
      assert Cluster(q, root) == Cluster(p, p[a]) + Cluster(p, p[b]);
      assert Cluster(p, p[a]) !! Cluster(p, p[b]);
    } else if root == p[a] || root == p[b] {
      assert Cluster(q, root) == {};
    } else {
      assert Cluster(q, root) == Cluster(p, root);
    }
  }

  /** Updating the winner's entries keeps the caches exact over a merge. */
  lemma CachesMerge(ids: Ids, p: Partition, trusted: map<Key, set<string>>, sizes: map<Key, nat>, a: Key, b: Key)
    requires Valid(p) && CachesExact(ids, p, trusted, sizes) && a in p && b in p && p[a] != p[b]
    ensures CacheAt(ids, p, trusted, sizes, p[a]) && CacheAt(ids, p, trusted, sizes, p[b])
    ensures var winner := Least(p[a], p[b]);
            CachesExact(ids, Merge(p, a, b), trusted[winner := trusted[p[a]] + trusted[p[b]]],
                        sizes[winner := sizes[p[a]] + sizes[p[b]]])
  {
    assert Rooted(p, a) && Rooted(p, b);
    assert CacheAt(ids, p, trusted, sizes, p[a]) && CacheAt(ids, p, trusted, sizes, p[b]);
    var q, winner := Merge(p, a, b), Least(p[a], p[b]);
    var trusted', sizes' := trusted[winner := trusted[p[a]] + trusted[p[b]]], sizes[winner := sizes[p[a]] + sizes[p[b]]];
    forall root | root in q && q[root] == root ensures CacheAt(ids, q, trusted', sizes', root) {
      assert Rooted(p, root);
      assert p[root] == root;
      assert CacheAt(ids, p, trusted, sizes, root);
      IdsOfMerge(ids, p, a, b, root);
      ClusterMerge(p, a, b, root);
    }
  }

  lemma SortedKnown(ids: Ids, scored: seq<Scored>)
    requires AllKnown(ids, scored)
    ensures AllKnown(ids, Sort(scored, HigherFirst)) && Sorted(Sort(scored, HigherFirst), HigherFirst)
  {
    var cs := Sort(scored, HigherFirst);
    SameMembers(cs, scored);
    SortSorted(scored, HigherFirst);
    forall i | 0 <= i < |cs| ensures Known(ids, cs[i]) {
      assert cs[i] in scored;
    }
  }

  /** One pass of the loop body, on the forest and the caches. */
  method Consider(ids: Ids, t: Thresholds, uf: UnionFind, trusted: map<Key, set<string>>, sizes: map<Key, nat>, s: Scored)
    returns (candidate: Candidate, trusted': map<Key, set<string>>, sizes': map<Key, nat>)
    requires uf.Valid() && s.left in uf.clusters && s.right in uf.clusters
    requires CachesExact(ids, uf.clusters, trusted, sizes)
    modifies uf
    ensures uf.Valid() && uf.clusters == Step(ids, t, old(uf.clusters), s)
    ensures candidate == Candidate(s, StatusAt(ids, t, old(uf.clusters), s), ImpactAt(old(uf.clusters), s))
    ensures CachesExact(ids, uf.clusters, trusted', sizes')
  {
    ghost var p := uf.clusters;
    assert Rooted(p, s.left) && Rooted(p, s.right);
    var leftRoot := uf.Find(s.left);
    var rightRoot := uf.Find(s.right);
    assert uf.clusters == p && leftRoot == p[s.left] && rightRoot == p[s.right];
    assert CacheAt(ids, p, trusted, sizes, leftRoot) && CacheAt(ids, p, trusted, sizes, rightRoot);
    var leftIds, rightIds := trusted[leftRoot], trusted[rightRoot];
    var status :=
      if leftIds != {} && rightIds != {} && leftIds !! rightIds then TrustedIdConflict
      else if s.probability >= t.autoMatch then AutoMatch
      else if s.probability >= t.reviewLow then Review
      else NoMatch;
    var leftSize, rightSize := sizes[leftRoot], sizes[rightRoot];
    var mergedSize := if leftRoot == rightRoot then leftSize else leftSize + rightSize;
    candidate := Candidate(s, status, Impact(leftSize, rightSize, mergedSize));
    trusted', sizes' := trusted, sizes;
    if status == AutoMatch && leftRoot != rightRoot {
      CachesMerge(ids, p, trusted, sizes, s.left, s.right);
      var root := uf.Union(s.left, s.right);
      trusted' := trusted[root := leftIds + rightIds];
      sizes' := sizes[root := mergedSize];
    } else if status == AutoMatch {
      MergeWithinCluster(p, s.left, s.right);
    }
  }

  ghost predicate Reports(ids: Ids, t: Thresholds, cs: seq<Scored>, results: seq<Candidate>)
    requires AllKnown(ids, cs)
  {
    && |results| <= |cs|
    && forall i {:trigger results[i]} :: 0 <= i < |results| ==> results[i] == CandidateAt(ids, t, cs, i)
  }

  lemma ReportsAppend(ids: Ids, t: Thresholds, cs: seq<Scored>, results: seq<Candidate>, candidate: Candidate)
    requires AllKnown(ids, cs) && |results| < |cs| && Reports(ids, t, cs, results)
    requires candidate == CandidateAt(ids, t, cs, |results|)
    ensures Reports(ids, t, cs, results + [candidate])
  {
    var more := results + [candidate];
    forall i {:trigger more[i]} | 0 <= i < |more| ensures more[i] == CandidateAt(ids, t, cs, i) {
      if i < |results| {
        assert more[i] == results[i];
      }
    }
  }

  /** Every reported status is the one that the final clusters give. */
  ghost predicate ReportsFinal(ids: Ids, t: Thresholds, cs: seq<Scored>, results: seq<Candidate>)
    requires AllKnown(ids, cs)
  {
    && |results| == |cs|
    && forall i {:trigger results[i]} :: 0 <= i < |results| ==>
         Known(ids, cs[i]) && results[i].status == StatusByFinal(ids, t, Final(ids, t, cs), cs[i])
  }

  lemma ReportsAreFinal(ids: Ids, t: Thresholds, cs: seq<Scored>, results: seq<Candidate>)
    requires AllKnown(ids, cs) && Sorted(cs, HigherFirst) && |results| == |cs| && Reports(ids, t, cs, results)
    ensures ReportsFinal(ids, t, cs, results)
  {
    forall i {:trigger results[i]} | 0 <= i < |results|
      ensures Known(ids, cs[i]) && results[i].status == StatusByFinal(ids, t, Final(ids, t, cs), cs[i])
    {
      StatusIsFinal(ids, t, cs, i);
    }
  }

  /** The loop over candidates in the order given. */
  method RunInOrder(ids: Ids, t: Thresholds, cs: seq<Scored>) returns (results: seq<Candidate>)
    requires AllKnown(ids, cs)
    ensures |results| == |cs| && Reports(ids, t, cs, results)
  {
    var uf := new UnionFind(ids.Keys);
    var trusted := map k | k in ids :: if ids[k] == "" then {} else {ids[k]};
    var sizes: map<Key, nat> := map k | k in ids :: 1;
    InitialCaches(ids, trusted, sizes);
    results := [];
    for n := 0 to |cs|
      invariant uf.Valid() && uf.clusters == After(ids, t, cs, n)
      invariant CachesExact(ids, uf.clusters, trusted, sizes)
      invariant |results| == n && Reports(ids, t, cs, results)
    {
      assert Known(ids, cs[n]);
      var candidate;
      candidate, trusted, sizes := Consider(ids, t, uf, trusted, sizes, cs[n]);
      ReportsAppend(ids, t, cs, results, candidate);
      results := results + [candidate];
    }
  }

  /** A run takes the candidates in descending probability and reports each with its
      status and the sizes of the clusters it found. */
  method Run(ids: Ids, t: Thresholds, scored: seq<Scored>) returns (results: seq<Candidate>)
    requires AllKnown(ids, scored)
    ensures AllKnown(ids, Sort(scored, HigherFirst))
    ensures |results| == |scored| && Reports(ids, t, Sort(scored, HigherFirst), results)
    ensures ReportsFinal(ids, t, Sort(scored, HigherFirst), results)
  {
    var cs := Sort(scored, HigherFirst);
    SortedKnown(ids, scored);
    SameMembers(cs, scored);
    results := RunInOrder(ids, t, cs);
    ReportsAreFinal(ids, t, cs, results);
  }
}
