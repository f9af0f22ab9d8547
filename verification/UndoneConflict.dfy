/** Why a recorded conflict needs a condition to be final. Trusted keys are compared as
    bare tuples, whichever rule they come from, so two trusted rules that produce equal
    tuples can make clusters share in a chain; composite links along the chain then join
    the two records of an earlier conflict. */
module UndoneConflict {
  import opened Keys
  import opened Collections
  import opened Partitions
  import opened Records
  import opened Composite
  import opened Deterministic

  lemma SharesPersist(vals: Trusted, t: Partition, p: Partition, a: Key, b: Key)
    requires Coarser(t, p) && a in t && b in t && Shares(vals, t, a, b)
    ensures Shares(vals, p, a, b)
  {
    var j, k, v :| Holds(vals, t, t[a], j, v) && Holds(vals, t, t[b], k, v);
    assert Holds(vals, p, p[a], j, v) && Holds(vals, p, p[b], k, v);
  }

  ghost predicate NoConflict(o: Outcome, link: Link) {
    link !in o.conflicts
  }

  /** A link between trusted-phase clusters that share a key is never a conflict. */
  lemma {:induction false} SharingNeverConflicts(vals: Trusted, t: Partition, links: seq<Link>, n: nat, link: Link)
    requires n <= |links| && AllJoin(t, links) && Valid(t)
    requires Joins(t, link) && Shares(vals, t, link.left, link.right)
    ensures NoConflict(After(vals, Start(t), links, n), link)
  {
    if n == 0 {
    } else {
      SharingNeverConflicts(vals, t, links, n - 1, link);
      AfterInvariant(vals, t, links, n - 1);
      assert Joins(t, links[n - 1]);
      SharingSteps(vals, t, After(vals, Start(t), links, n - 1), links[n - 1], link);
    }
  }

  lemma SharingSteps(vals: Trusted, t: Partition, o: Outcome, next: Link, link: Link)
    requires Coarser(t, o.p) && Joins(o.p, next) && Joins(t, link) && Shares(vals, t, link.left, link.right)
    requires NoConflict(o, link)
    ensures NoConflict(Step(vals, o, next), link)
  {
    SharesPersist(vals, t, o.p, link.left, link.right);
  }

  lemma {:induction false} FlatHead<T>(blocks: seq<seq<T>>)
    requires blocks != [] && blocks[0] != []
    ensures Flat(blocks) != [] && Flat(blocks)[0] == blocks[0][0]
    decreases |blocks|
  {
    if |blocks| == 1 {
      assert Flat(blocks[..0]) == [];
    } else {
      FlatHead(blocks[..|blocks| - 1]);
    }
  }

  /** `a` and `c` are the only records that agree on the rule. */
  ghost predicate OnlyPair(rule: Rule, records: seq<Record>, a: Key, c: Key) {
    && Agree(rule, records, a, c) && Precedes(a, c)
    && forall x, y :: Agree(rule, records, x, y) && Precedes(x, y) ==> x == a && y == c
  }

  lemma OnlyPairComesFirst(rules: seq<Rule>, records: seq<Record>, rule: Rule, a: Key, c: Key)
    requires UniqueKeys(records) && !rule.trusted && OnlyPair(rule, records, a, c)
    requires CompositeRules(rules) != [] && CompositeRules(rules)[0] == rule
    ensures CompositeLinks(rules, records) != [] && CompositeLinks(rules, records)[0] == Link(a, c, rule.id)
  {
    var links, blocks := LinksOfRule(rule, records), RuleBlocks(CompositeRules(rules), records);
    AgreeingPairProposed(rule, records, a, c);
    InLinksOfRule(rule, records, Link(a, c, rule.id));
    var first := links[0];
    InLinksOfRule(rule, records, first);
    LinkAgrees(rule, records, first);
    ProposedAscending(rule, records, first);
    assert blocks[0] == links;
    FlatHead(blocks);
  }

  /** Trusted-phase clusters of `a`, `b`, `c` share in a chain but not end to end. */
  ghost predicate SharingChain(vals: Trusted, t: Partition, a: Key, b: Key, c: Key) {
    && a in t && b in t && c in t
    && Shares(vals, t, a, b) && Shares(vals, t, b, c) && !Shares(vals, t, a, c)
  }

  lemma TogetherIfSharing(rules: seq<Rule>, records: seq<Record>, rule: Rule, a: Key, b: Key)
    requires UniqueKeys(records) && rule in rules && !rule.trusted && Agree(rule, records, a, b) && Precedes(a, b)
    requires var trusted := TrustedRules(rules);
             var t := TrustedPartition(trusted, records);
             a in t && b in t && Shares(TrustedKeys(trusted, records), t, a, b)
    ensures Together(Match(rules, records), a, b)
  {
    var trusted, links := TrustedRules(rules), CompositeLinks(rules, records);
    var vals, t := TrustedKeys(trusted, records), TrustedPartition(trusted, records);
    TrustedOnly(rules);
    TrustedPhaseExact(trusted, records);
    AgreeingPairSettled(rules, records, rule, a, b);
    SharingNeverConflicts(vals, t, links, |links|, Link(a, b, rule.id));
  }

  /** The failing family: the first composite rule pairs only the ends of a chain, and a
      later one pairs its neighbours. The conflict of the ends is recorded, and yet they
      end in one cluster. */
  lemma ChainOfRecordsUndoesConflict(rules: seq<Rule>, records: seq<Record>, first: Rule, second: Rule, a: Key, b: Key, c: Key)
    requires UniqueKeys(records) && first in rules && second in rules && !first.trusted && !second.trusted
    requires CompositeRules(rules) != [] && CompositeRules(rules)[0] == first && OnlyPair(first, records, a, c)
    requires Agree(second, records, a, b) && Precedes(a, b) && Agree(second, records, b, c) && Precedes(b, c)
    requires SharingChain(TrustedKeys(TrustedRules(rules), records), TrustedPartition(TrustedRules(rules), records), a, b, c)
    ensures Together(Match(rules, records), a, c) && Link(a, c, first.id) in Match(rules, records).conflicts
  {
    var trusted, links := TrustedRules(rules), CompositeLinks(rules, records);
    var vals, t := TrustedKeys(trusted, records), TrustedPartition(trusted, records);
    TogetherIfSharing(rules, records, second, a, b);
    TogetherIfSharing(rules, records, second, b, c);
    TrustedOnly(rules);
    TrustedPhaseExact(trusted, records);
    OnlyPairComesFirst(rules, records, first, a, c);
    ChainIsApart(vals, t, a, b, c);
    AfterNext(vals, t, links, 0);
    ConflictsStay(vals, t, links, 1, |links|, Link(a, c, first.id));
  }

  // ----- One input of the family -----

  const A := Record("a", "o", map["x" := "1", "z" := "s", "w" := "s"])
  const B := Record("b", "o", map["x" := "2", "y" := "1", "w" := "s"])
  const C := Record("c", "o", map["y" := "2", "z" := "s", "w" := "s"])
  const TRUSTED_X := Rule("x", 1, ["x"], true, true)
  const TRUSTED_Y := Rule("y", 2, ["y"], true, true)
  const PAIRS_ENDS := Rule("z", 3, ["z"], false, true)
  const PAIRS_ALL := Rule("w", 4, ["w"], false, true)
  const RULES := [TRUSTED_X, TRUSTED_Y, PAIRS_ENDS, PAIRS_ALL]
  const RECORDS := [A, B, C]

  lemma OneField(rule: Rule, r: Record)
    requires |rule.fields| == 1
    ensures KeyUnder(rule, r) == if Value(r, rule.fields[0]) == "" then None else Some([Value(r, rule.fields[0])])
  {
    assert Values(r, rule.fields) == [Value(r, rule.fields[0])];
  }

  lemma KeysOfA(rule: Rule)
    requires rule in RULES
    ensures KeyUnder(rule, A) == if rule == TRUSTED_X then Some(["1"]) else if rule == TRUSTED_Y then None else Some(["s"])
  {
    OneField(rule, A);
  }

  lemma KeysOfB(rule: Rule)
    requires rule in RULES
    ensures KeyUnder(rule, B) == if rule == TRUSTED_X then Some(["2"]) else if rule == TRUSTED_Y then Some(["1"])
                                 else if rule == PAIRS_ENDS then None else Some(["s"])
  {
    OneField(rule, B);
  }

  lemma KeysOfC(rule: Rule)
    requires rule in RULES
    ensures KeyUnder(rule, C) == if rule == TRUSTED_X then None else if rule == TRUSTED_Y then Some(["2"]) else Some(["s"])
  {
    OneField(rule, C);
  }

  lemma OrderOfExample()
    ensures Precedes("a", "b") && Precedes("b", "c") && Precedes("a", "c") && UniqueKeys(RECORDS)
  {
    assert DiffersAt("a", "b", 0) && DiffersAt("b", "c", 0) && DiffersAt("a", "c", 0);
  }

  lemma CompositeOfExample()
    ensures CompositeRules(RULES) == [PAIRS_ENDS, PAIRS_ALL]
  {
    var f := (r: Rule) => !r.trusted;
    assert Where([PAIRS_ALL], f) == [PAIRS_ALL];
    assert RULES[1..] == [TRUSTED_Y, PAIRS_ENDS, PAIRS_ALL] && RULES[1..][1..] == [PAIRS_ENDS, PAIRS_ALL];
    assert [PAIRS_ENDS, PAIRS_ALL][1..] == [PAIRS_ALL];
    assert Where([PAIRS_ENDS, PAIRS_ALL], f) == [PAIRS_ENDS, PAIRS_ALL];
    assert Where(RULES, f) == [PAIRS_ENDS, PAIRS_ALL];
    assert Sort([PAIRS_ALL], ByPriority) == [PAIRS_ALL];
    assert Insert(PAIRS_ENDS, [PAIRS_ALL], ByPriority) == [PAIRS_ENDS, PAIRS_ALL];
  }

  ghost predicate Differ(rule: Rule, r: Record, s: Record) {
    KeyUnder(rule, r).None? || KeyUnder(rule, r) != KeyUnder(rule, s)
  }

  lemma DifferentRecordsDisagree(rule: Rule, r: Record, s: Record, t: Record, a: Key, b: Key)
    requires Differ(rule, r, s) && Differ(rule, r, t) && Differ(rule, s, t) && Agree(rule, [r, s, t], a, b)
    ensures a == b
  {
    var records := [r, s, t];
    var i, j :| AgreeAt(rule, records, i, j) && records[i].key == a && records[j].key == b;
    assert i == 0 || i == 1 || i == 2;
    assert j == 0 || j == 1 || j == 2;
    assert i == j;
  }

  /** Different records agree on no trusted rule. */
  lemma NoTrustedAgreement(rule: Rule, a: Key, b: Key)
    requires rule == TRUSTED_X || rule == TRUSTED_Y
    requires Agree(rule, RECORDS, a, b)
    ensures a == b
  {
    KeysOfA(rule);
    KeysOfB(rule);
    KeysOfC(rule);
    DifferentRecordsDisagree(rule, A, B, C, a, b);
  }

  lemma {:induction false} LoopsGoNowhere(links: set<Pair>, w: seq<Key>)
    requires Walk(links, w) && forall x :: x in links ==> x.0 == x.1
    ensures w[0] == w[|w| - 1]
    decreases |w|
  {
    if |w| > 1 {
      var n := |w| - 1;
      assert forall i :: 0 <= i < n - 1 ==> Linked(links, w[i], w[i + 1]) && w[..n][i] == w[i];
      LoopsGoNowhere(links, w[..n]);
      assert Linked(links, w[n - 1], w[n]);
    }
  }

  lemma TrustedOfExample()
    ensures forall r :: r in TrustedRules(RULES) <==> r == TRUSTED_X || r == TRUSTED_Y
    ensures var t := TrustedPartition(TrustedRules(RULES), RECORDS);
            forall j, k :: j in t && k in t && t[j] == t[k] ==> j == k
  {
    var trusted := TrustedRules(RULES);
    forall r ensures r in trusted <==> r == TRUSTED_X || r == TRUSTED_Y {
      InTrustedRules(RULES, r);
    }
    var t, agree := TrustedPartition(trusted, RECORDS), AgreePairs(trusted, RECORDS);
    TrustedPhaseExact(trusted, RECORDS);
    forall x | x in agree ensures x.0 == x.1 {
      var rule :| rule in trusted && Agree(rule, RECORDS, x.0, x.1);
      NoTrustedAgreement(rule, x.0, x.1);
    }
    forall j, k | j in t && k in t && t[j] == t[k] ensures j == k {
      assert Connected(agree, j, k);
      var w :| Walk(agree, w) && w[0] == j && w[|w| - 1] == k;
      LoopsGoNowhere(agree, w);
    }
  }

  function AsSet(key: Option<RuleKey>): set<RuleKey> {
    if key.Some? then {key.value} else {}
  }

  lemma KeysOfTwoRules(trusted: seq<Rule>, x: Rule, y: Rule, r: Record)
    requires forall rule :: rule in trusted <==> rule == x || rule == y
    ensures TrustedKeysOf(trusted, r) == AsSet(KeyUnder(x, r)) + AsSet(KeyUnder(y, r))
  {
    assert x in trusted && y in trusted;
  }

  lemma ValuesOfA(trusted: seq<Rule>)
    requires forall r :: r in trusted <==> r == TRUSTED_X || r == TRUSTED_Y
    ensures TrustedKeysOf(trusted, A) == {["1"]}
  {
    KeysOfA(TRUSTED_X);
    KeysOfA(TRUSTED_Y);
    KeysOfTwoRules(trusted, TRUSTED_X, TRUSTED_Y, A);
  }

  lemma ValuesOfB(trusted: seq<Rule>)
    requires forall r :: r in trusted <==> r == TRUSTED_X || r == TRUSTED_Y
    ensures TrustedKeysOf(trusted, B) == {["1"], ["2"]}
  {
    KeysOfB(TRUSTED_X);
    KeysOfB(TRUSTED_Y);
    KeysOfTwoRules(trusted, TRUSTED_X, TRUSTED_Y, B);
  }

  lemma ValuesOfC(trusted: seq<Rule>)
    requires forall r :: r in trusted <==> r == TRUSTED_X || r == TRUSTED_Y
    ensures TrustedKeysOf(trusted, C) == {["2"]}
  {
    KeysOfC(TRUSTED_X);
    KeysOfC(TRUSTED_Y);
    KeysOfTwoRules(trusted, TRUSTED_X, TRUSTED_Y, C);
  }

  lemma ChainOfValues(vals: Trusted, t: Partition, a: Key, b: Key, c: Key, v: RuleKey, w: RuleKey)
    requires a in t && b in t && c in t && a in vals && b in vals && c in vals && v != w
    requires forall j, k :: j in t && k in t && t[j] == t[k] ==> j == k
    requires vals[a] == {v} && vals[b] == {v, w} && vals[c] == {w}
    ensures SharingChain(vals, t, a, b, c)
  {
    assert Holds(vals, t, t[a], a, v) && Holds(vals, t, t[b], b, v);
    assert Holds(vals, t, t[b], b, w) && Holds(vals, t, t[c], c, w);
  }

  lemma TrustedKeysOfExample(trusted: seq<Rule>)
    requires forall r :: r in trusted <==> r == TRUSTED_X || r == TRUSTED_Y
    ensures var vals := TrustedKeys(trusted, RECORDS);
            "a" in vals && "b" in vals && "c" in vals && vals["a"] == {["1"]} && vals["b"] == {["1"], ["2"]} && vals["c"] == {["2"]}
  {
    OrderOfExample();
    ValuesOfA(trusted);
    ValuesOfB(trusted);
    ValuesOfC(trusted);
    TrustedKeysAt(trusted, RECORDS, 0);
    TrustedKeysAt(trusted, RECORDS, 1);
    TrustedKeysAt(trusted, RECORDS, 2);
  }

  lemma KeySetOfExample()
    ensures "a" in KeySet(RECORDS) && "b" in KeySet(RECORDS) && "c" in KeySet(RECORDS)
  {
    assert A in RECORDS && B in RECORDS && C in RECORDS;
  }

  lemma ChainOfExample()
    ensures SharingChain(TrustedKeys(TrustedRules(RULES), RECORDS), TrustedPartition(TrustedRules(RULES), RECORDS), "a", "b", "c")
  {
    var trusted := TrustedRules(RULES);
    TrustedOfExample();
    TrustedKeysOfExample(trusted);
    KeySetOfExample();
    ChainOfValues(TrustedKeys(trusted, RECORDS), TrustedPartition(trusted, RECORDS), "a", "b", "c", ["1"], ["2"]);
  }

  lemma AgreeFrom(rule: Rule, records: seq<Record>, i: nat, j: nat)
    requires i < |records| && j < |records|
    requires KeyUnder(rule, records[i]).Some? && KeyUnder(rule, records[i]) == KeyUnder(rule, records[j])
    ensures Agree(rule, records, records[i].key, records[j].key)
  {
    assert AgreeAt(rule, records, i, j);
  }

  lemma AgreementOfExample()
    ensures Agree(PAIRS_ENDS, RECORDS, "a", "c")
    ensures Agree(PAIRS_ALL, RECORDS, "a", "b") && Agree(PAIRS_ALL, RECORDS, "b", "c")
  {
    KeysOfA(PAIRS_ENDS);
    KeysOfC(PAIRS_ENDS);
    AgreeFrom(PAIRS_ENDS, RECORDS, 0, 2);
    KeysOfA(PAIRS_ALL);
    KeysOfB(PAIRS_ALL);
    KeysOfC(PAIRS_ALL);
    AgreeFrom(PAIRS_ALL, RECORDS, 0, 1);
    AgreeFrom(PAIRS_ALL, RECORDS, 1, 2);
  }

  lemma OnlyEndsAgree(x: Key, y: Key)
    requires Agree(PAIRS_ENDS, RECORDS, x, y) && Precedes(x, y)
    ensures x == "a" && y == "c"
  {
    KeysOfB(PAIRS_ENDS);
    OrderOfExample();
    PrecedesAsymmetric(x, y);
    PrecedesAsymmetric("a", "c");
    var i, j :| AgreeAt(PAIRS_ENDS, RECORDS, i, j) && RECORDS[i].key == x && RECORDS[j].key == y;
    assert i != 1 && j != 1;
  }

  lemma EndsAreOnlyPair()
    ensures OnlyPair(PAIRS_ENDS, RECORDS, "a", "c")
  {
    OrderOfExample();
    AgreementOfExample();
    forall x, y | Agree(PAIRS_ENDS, RECORDS, x, y) && Precedes(x, y) ensures x == "a" && y == "c" {
      OnlyEndsAgree(x, y);
    }
  }

  /** Three admissible records and four rules: "a" and "c" are reported as a conflict and
      share a cluster. */
  lemma ConflictAndTogether()
    ensures Admissible(RECORDS)
    ensures Together(Match(RULES, RECORDS), "a", "c") && Link("a", "c", "z") in Match(RULES, RECORDS).conflicts
  {
    AdmissibleExample();
    UndoneInExample(RULES, RECORDS);
  }

  lemma AdmissibleExample()
    ensures Admissible(RECORDS)
  {
    OrderOfExample();
  }

  lemma UndoneInExample(rules: seq<Rule>, records: seq<Record>)
    requires rules == RULES && records == RECORDS
    ensures Together(Match(rules, records), "a", "c") && Link("a", "c", "z") in Match(rules, records).conflicts
  {
    OrderOfExample();
    CompositeOfExample();
    AgreementOfExample();
    EndsAreOnlyPair();
    ChainOfExample();
    ChainOfRecordsUndoesConflict(rules, records, PAIRS_ENDS, PAIRS_ALL, "a", "b", "c");
  }
}
