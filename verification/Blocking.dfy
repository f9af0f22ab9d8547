/** Candidate generation of the probabilistic matcher: records that share a usable
    blocking key under some rule are paired, up to a limit on the number of pairs. */
module Blocking {
  import opened Keys
  import opened Collections
  import opened Partitions
  import opened Records
  import opened Composite
  import opened Deterministic
  import Probabilistic

  datatype Error = NotOneOrganization | BadKeys | LimitExceeded

  /** The rules that proposed each pair, and the pairs in order of first appearance. */
  datatype Candidates = Rejected(error: Error) | Proposed(order: seq<Pair>, rules: map<Pair, seq<string>>)

  // ----- Tallying links -----

  function Add(table: map<Pair, seq<string>>, link: Link): map<Pair, seq<string>> {
    var pair := (link.left, link.right);
    table[pair := (if pair in table then table[pair] else []) + [link.rule]]
  }

  function Tally(links: seq<Link>): map<Pair, seq<string>> {
    if links == [] then map[] else Add(Tally(links[..|links| - 1]), links[|links| - 1])
  }

  lemma TallyAppend(links: seq<Link>, link: Link)
    ensures Tally(links + [link]) == Add(Tally(links), link)
  {
    assert (links + [link])[..|links|] == links;
  }

  lemma {:induction false} TallyKeys(links: seq<Link>)
    ensures Tally(links).Keys == Pairs(links)
  {
    if links == [] {
      assert Pairs([]) == {};
    } else {
      var front, last := links[..|links| - 1], links[|links| - 1];
      TallyKeys(front);
      assert links == front + [last];
      PairsAppend(front, last);
    }
  }

  function RulesAt(table: map<Pair, seq<string>>, pair: Pair): seq<string> {
    if pair in table then table[pair] else []
  }

  ghost predicate PairsDistinct(links: seq<Link>) {
    forall i, j :: 0 <= i < j < |links| ==> (links[i].left, links[i].right) != (links[j].left, links[j].right)
  }

  /** Links of one rule, no two with the same pair. */
  ghost predicate OneRuleBlock(block: seq<Link>, id: string) {
    PairsDistinct(block) && forall i :: 0 <= i < |block| ==> block[i].rule == id
  }

  lemma SplitLast(front: seq<Link>, block: seq<Link>, id: string)
    requires block != [] && OneRuleBlock(block, id)
    ensures var less, last := block[..|block| - 1], block[|block| - 1];
            && OneRuleBlock(less, id) && last.rule == id && (last.left, last.right) !in Pairs(less)
            && block == less + [last] && front + block == front + less + [last]
  {
    var less, last := block[..|block| - 1], block[|block| - 1];
    NotInPairs(less, (last.left, last.right));
  }

  /** A block of links of one rule adds the rule once to each of its pairs. */
  lemma {:induction false} TallyBlock(front: seq<Link>, block: seq<Link>, id: string, pair: Pair)
    requires OneRuleBlock(block, id)
    ensures RulesAt(Tally(front + block), pair) ==
            RulesAt(Tally(front), pair) + if pair in Pairs(block) then [id] else []
    decreases |block|
  {
    if block == [] {
      assert front + block == front;
      assert Pairs([]) == {};
    } else {
      var less, last := block[..|block| - 1], block[|block| - 1];
      SplitLast(front, block, id);
      TallyBlock(front, less, id, pair);
      TallyNext(front + less, less, last, pair);
    }
  }

  lemma TallyNext(links: seq<Link>, less: seq<Link>, last: Link, pair: Pair)
    ensures RulesAt(Tally(links + [last]), pair) ==
            RulesAt(Tally(links), pair) + if pair == (last.left, last.right) then [last.rule] else []
    ensures pair in Pairs(less + [last]) <==> pair in Pairs(less) || pair == (last.left, last.right)
  {
    TallyAppend(links, last);
    PairsAppend(less, last);
  }

  lemma NotInPairs(links: seq<Link>, pair: Pair)
    requires forall i :: 0 <= i < |links| ==> (links[i].left, links[i].right) != pair
    ensures pair !in Pairs(links)
  {
    forall l | l in links ensures (l.left, l.right) != pair {
      var i :| 0 <= i < |links| && links[i] == l;
    }
  }

  // ----- A rule proposes each pair at most once -----

  lemma {:induction false} CombinationsDistinct<I>(s: seq<I>)
    requires Distinct(s)
    ensures Distinct(Combinations(s))
  {
    if |s| >= 2 {
      CombinationsDistinct(s[1..]);
      CombinationsExactly(s[1..]);
      var first, rest := PairedWith(s[0], s[1..]), Combinations(s[1..]);
      forall i, j | 0 <= i < |first| && 0 <= j < |rest| ensures first[i] != rest[j] {
        var (x, y) := rest[j];
        assert (x, y) in rest;
        assert InOrder(s[1..], x, y);
        var k :| 0 <= k < |s[1..]| && s[1..][k] == x;
        assert s[k + 1] == x && first[i].0 == s[0];
      }
      DistinctConcat(first, rest);
    }
  }

  lemma DistinctConcat<T>(a: seq<T>, b: seq<T>)
    requires Distinct(a) && Distinct(b)
    requires forall i, j :: 0 <= i < |a| && 0 <= j < |b| ==> a[i] != b[j]
    ensures Distinct(a + b)
  {
  }

  lemma {:induction false} FlatDistinct<T>(blocks: seq<seq<T>>)
    requires forall i :: 0 <= i < |blocks| ==> Distinct(blocks[i])
    requires forall i, j :: 0 <= i < j < |blocks| ==> forall x :: x in blocks[i] ==> x !in blocks[j]
    ensures Distinct(Flat(blocks))
  {
    if blocks == [] {
    } else {
      var n := |blocks| - 1;
      FlatDistinct(blocks[..n]);
      var front, last := Flat(blocks[..n]), blocks[n];
      forall i, j | 0 <= i < |front| && 0 <= j < |last| ensures front[i] != last[j] {
        InFlat(blocks[..n], front[i]);
        var m :| 0 <= m < n && front[i] in blocks[..n][m];
        assert front[i] in blocks[m];
      }
      DistinctConcat(front, last);
    }
  }

  lemma LabelledDistinct(pairs: seq<(Key, Key)>, id: string)
    requires Distinct(pairs)
    ensures Distinct(Labelled(pairs, id))
  {
    var links := Labelled(pairs, id);
    assert forall i :: 0 <= i < |pairs| ==> pairs[i] == (links[i].left, links[i].right);
  }

  lemma GroupLinkMember(rule: Rule, records: seq<Record>, v: RuleKey, link: Link)
    requires !rule.trusted && link in GroupLinks(rule, records, v)
    ensures InGroup(rule, records, v, link.left)
  {
    var members := GroupMembers(rule, records, v);
    LabelledExactly(Combinations(members), rule.id, link);
    LinkInMembers(false, members, link);
    GroupMembersExactly(rule, records, v);
  }

  lemma OneGroup(rule: Rule, records: seq<Record>, v: RuleKey, w: RuleKey, k: Key)
    requires UniqueKeys(records) && InGroup(rule, records, v, k) && InGroup(rule, records, w, k)
    ensures v == w
  {
    var i :| 0 <= i < |records| && KeyUnder(rule, records[i]) == Some(v) && records[i].key == k;
    var j :| 0 <= j < |records| && KeyUnder(rule, records[j]) == Some(w) && records[j].key == k;
    assert i == j;
  }

  lemma GroupLinksDistinct(rule: Rule, records: seq<Record>, v: RuleKey)
    requires UniqueKeys(records) && !rule.trusted
    ensures Distinct(GroupLinks(rule, records, v))
  {
    var keys, tags := KeysOf(records), TagsUnder(rule, records);
    assert Distinct(keys);
    MembersDistinct(keys, tags, v);
    SortKeepsDistinct(Members(keys, tags, v), AtMost);
    CombinationsDistinct(GroupMembers(rule, records, v));
    LabelledDistinct(Combinations(GroupMembers(rule, records, v)), rule.id);
  }

  lemma BlocksDisjoint(rule: Rule, records: seq<Record>, i: nat, j: nat, link: Link)
    requires UniqueKeys(records) && !rule.trusted && i < j < |GroupBlocks(rule, records)|
    requires link in GroupBlocks(rule, records)[i]
    ensures link !in GroupBlocks(rule, records)[j]
  {
    var order := GroupOrder(rule, records);
    SeenExactly(TagsUnder(rule, records));
    GroupLinkMember(rule, records, order[i], link);
    if link in GroupBlocks(rule, records)[j] {
      GroupLinkMember(rule, records, order[j], link);
      OneGroup(rule, records, order[i], order[j], link.left);
    }
  }

  lemma RuleLinksDistinct(rule: Rule, records: seq<Record>)
    requires UniqueKeys(records) && !rule.trusted
    ensures PairsDistinct(LinksOfRule(rule, records))
    ensures forall i :: 0 <= i < |LinksOfRule(rule, records)| ==> LinksOfRule(rule, records)[i].rule == rule.id
  {
    var blocks, links := GroupBlocks(rule, records), LinksOfRule(rule, records);
    forall i | 0 <= i < |blocks| ensures Distinct(blocks[i]) {
      GroupLinksDistinct(rule, records, GroupOrder(rule, records)[i]);
    }
    forall i, j | 0 <= i < j < |blocks| ensures forall x :: x in blocks[i] ==> x !in blocks[j] {
      forall x | x in blocks[i] ensures x !in blocks[j] {
        BlocksDisjoint(rule, records, i, j, x);
      }
    }
    FlatDistinct(blocks);
    forall i | 0 <= i < |links| ensures links[i].rule == rule.id {
      InLinksOfRule(rule, records, links[i]);
      var v :| FromGroup(rule, records, links[i], v);
      LabelledExactly(Combinations(GroupMembers(rule, records, v)), rule.id, links[i]);
    }
    forall i, j | 0 <= i < j < |links| ensures (links[i].left, links[i].right) != (links[j].left, links[j].right) {
      assert links[i] != links[j];
    }
  }

  // ----- What the tally of all rules holds -----

  /** The pair agrees on the blocking key of the rule, lesser key first. */
  ghost predicate Blocks(rule: Rule, records: seq<Record>, pair: Pair) {
    Precedes(pair.0, pair.1) && Agree(rule, records, pair.0, pair.1)
  }

  ghost function RuleIds(rules: seq<Rule>, records: seq<Record>, pair: Pair): seq<string> {
    if rules == [] then []
    else
      RuleIds(rules[..|rules| - 1], records, pair)
      + if Blocks(rules[|rules| - 1], records, pair) then [rules[|rules| - 1].id] else []
  }

  lemma RulePairsExactly(rule: Rule, records: seq<Record>, pair: Pair)
    requires UniqueKeys(records) && !rule.trusted
    ensures pair in Pairs(LinksOfRule(rule, records)) <==> Blocks(rule, records, pair)
  {
    var links := LinksOfRule(rule, records);
    if Blocks(rule, records, pair) {
      var link := Link(pair.0, pair.1, rule.id);
      AgreeingPairProposed(rule, records, pair.0, pair.1);
      InLinksOfRule(rule, records, link);
      assert link in links;
    }
    if pair in Pairs(links) {
      var l :| l in links && pair == (l.left, l.right);
      InLinksOfRule(rule, records, l);
      LinkAgrees(rule, records, l);
      ProposedAscending(rule, records, l);
    }
  }

  lemma {:induction false} TallyExactly(rules: seq<Rule>, records: seq<Record>, pair: Pair)
    requires UniqueKeys(records) && forall r :: r in rules ==> !r.trusted
    ensures RulesAt(Tally(LinksOfRules(rules, records)), pair) == RuleIds(rules, records, pair)
  {
    if rules == [] {
    } else {
      var n := |rules| - 1;
      var front, last := rules[..n], rules[n];
      assert forall r :: r in front ==> r in rules;
      TallyExactly(front, records, pair);
      assert RuleBlocks(rules, records)[..n] == RuleBlocks(front, records);
      assert LinksOfRules(rules, records) == LinksOfRules(front, records) + LinksOfRule(last, records);
      RuleLinksDistinct(last, records);
      RulePairsExactly(last, records, pair);
      TallyBlock(LinksOfRules(front, records), LinksOfRule(last, records), last.id, pair);
    }
  }

  /** The pairs that share a usable key under some rule. */
  ghost function BlockedPairs(rules: seq<Rule>, records: seq<Record>): set<Pair> {
    set a, b | a in KeySet(records) && b in KeySet(records) && (exists rule :: rule in rules && Blocks(rule, records, (a, b))) :: (a, b)
  }

  lemma TallyPairs(rules: seq<Rule>, records: seq<Record>)
    requires UniqueKeys(records) && forall r :: r in rules ==> !r.trusted
    ensures Tally(LinksOfRules(rules, records)).Keys == BlockedPairs(rules, records)
  {
    var links := LinksOfRules(rules, records);
    TallyKeys(links);
    forall x | x in Pairs(links) ensures x in BlockedPairs(rules, records) {
      var l :| l in links && x == (l.left, l.right);
      InLinksOfRules(rules, records, l);
      var rule :| rule in rules && FromRule(rule, records, l);
      LinkAgrees(rule, records, l);
      ProposedAscending(rule, records, l);
      AgreeBetween(rule, records, l);
      assert Blocks(rule, records, x);
    }
    forall x | x in BlockedPairs(rules, records) ensures x in Pairs(links) {
      var rule :| rule in rules && Blocks(rule, records, x);
      AgreeingPairProposed(rule, records, x.0, x.1);
      InLinksOfRules(rules, records, Link(x.0, x.1, rule.id));
      assert Link(x.0, x.1, rule.id) in links;
    }
  }

  // ----- The program -----

  lemma PairsGrow(links: seq<Link>, n: nat)
    requires n <= |links|
    ensures |Tally(links[..n]).Keys| <= |Tally(links).Keys|
  {
    TallyKeys(links[..n]);
    TallyKeys(links);
    assert Pairs(links[..n]) <= Pairs(links);
    SubsetSize(Pairs(links[..n]), Pairs(links));
  }

  lemma SubsetSize<T>(a: set<T>, b: set<T>)
    requires a <= b
    ensures |a| <= |b|
  {
    assert b == a + (b - a);
  }

  /** The pairs of the links so far, each once, in order of first appearance. */
  ghost predicate Listed(order: seq<Pair>, table: map<Pair, seq<string>>) {
    Distinct(order) && forall pair :: pair in order <==> pair in table
  }

  /** The insertion loop; it stops as soon as the limit is passed. */
  method Insert(links: seq<Link>, limit: nat) returns (candidates: Candidates)
    ensures candidates == Rejected(LimitExceeded) <==> |Tally(links).Keys| > limit
    ensures candidates.Rejected? ==> candidates.error == LimitExceeded
    ensures candidates.Proposed? ==> candidates.rules == Tally(links) && Listed(candidates.order, candidates.rules)
  {
    var order: seq<Pair>, table: map<Pair, seq<string>> := [], map[];
    for n := 0 to |links|
      invariant table == Tally(links[..n]) && Listed(order, table) && |table.Keys| <= limit
    {
      var pair := (links[n].left, links[n].right);
      assert links[..n + 1] == links[..n] + [links[n]];
      TallyAppend(links[..n], links[n]);
      if pair !in table {
        order := order + [pair];
      }
      table := Add(table, links[n]);
      if |table.Keys| > limit {
        PairsGrow(links, n + 1);
        return Rejected(LimitExceeded);
      }
    }
    assert links[..|links|] == links;
    return Proposed(order, table);
  }

  method LinksUnder(rules: seq<Rule>, records: seq<Record>) returns (links: seq<Link>)
    requires forall r :: r in rules ==> !r.trusted
    ensures links == LinksOfRules(rules, records)
  {
    links := [];
    ghost var blocks := RuleBlocks(rules, records);
    for i := 0 to |rules|
      invariant links == Flat(blocks[..i])
    {
      assert rules[i] in rules;
      var groups := SortedGroups(rules[i], records);
      var added := Flat(seq(|groups|, j requires 0 <= j < |groups| => Labelled(Combinations(groups[j]), rules[i].id)));
      assert seq(|groups|, j requires 0 <= j < |groups| => Labelled(Combinations(groups[j]), rules[i].id)) == GroupBlocks(rules[i], records);
      links := links + added;
      FlatNext(blocks, i);
    }
    assert blocks[..|rules|] == blocks;
  }

  ghost predicate OneNamedOrganization(records: seq<Record>) {
    records != [] && records[0].organization != "" && forall r :: r in records ==> r.organization == records[0].organization
  }

  ghost predicate GoodKeys(records: seq<Record>) {
    UniqueKeys(records) && forall r :: r in records ==> r.key != ""
  }

  lemma OrganizationCount(records: seq<Record>)
    ensures var all := set r | r in records :: r.organization;
            ("" !in all && |all| == 1) <==> OneNamedOrganization(records)
  {
    var all := set r | r in records :: r.organization;
    if OneNamedOrganization(records) {
      assert records[0] in records;
      assert all == {records[0].organization};
    }
    if "" !in all && |all| == 1 {
      OneOrganization(records, all);
      assert records == [] ==> all == {};
      assert records[0] in records;
    }
  }

  lemma UniqueCount(records: seq<Record>)
    ensures UniqueKeys(records) <==> |KeysOf(records)| == |set k | k in KeysOf(records)|
  {
    var keys := KeysOf(records);
    DistinctSize(keys);
    if UniqueKeys(records) {
      forall i, j | 0 <= i < j < |keys| ensures keys[i] != keys[j] {
        assert records[i].key != records[j].key;
      }
    }
    if Distinct(keys) {
      forall i, j | 0 <= i < j < |records| ensures records[i].key != records[j].key {
        assert keys[i] != keys[j];
      }
    }
  }

  lemma {:induction false} DistinctSize(keys: seq<Key>)
    ensures |set k | k in keys| <= |keys|
    ensures Distinct(keys) <==> |keys| == |set k | k in keys|
  {
    if keys == [] {
      assert (set k | k in keys) == {};
    } else {
      var n := |keys| - 1;
      var front, last := keys[..n], keys[n];
      DistinctSize(front);
      assert (set k | k in keys) == (set k | k in front) + {last};
      assert Distinct(keys) <==> Distinct(front) && last !in front;
    }
  }

  /** What candidate generation promises: each error has its condition, and on success the
      pairs are listed once each with exactly the rules that proposed them. */
  ghost predicate GeneratedFrom(candidates: Candidates, records: seq<Record>, rules: seq<Rule>, limit: nat) {
    && (candidates == Rejected(NotOneOrganization) <==> !OneNamedOrganization(records))
    && (candidates == Rejected(BadKeys) <==> OneNamedOrganization(records) && !GoodKeys(records))
    && (candidates == Rejected(LimitExceeded) <==>
          OneNamedOrganization(records) && GoodKeys(records) && |BlockedPairs(rules, records)| > limit)
    && (candidates.Proposed? ==>
          && Listed(candidates.order, candidates.rules)
          && candidates.rules.Keys == BlockedPairs(rules, records)
          && forall pair :: pair in candidates.rules ==> candidates.rules[pair] == RuleIds(rules, records, pair))
  }

  /** Candidate generation with its three ways to fail. */
  method Generate(records: seq<Record>, rules: seq<Rule>, limit: nat) returns (candidates: Candidates)
    requires forall r :: r in rules ==> !r.trusted
    ensures GeneratedFrom(candidates, records, rules, limit)
  {
    var organizations := set r | r in records :: r.organization;
    OrganizationCount(records);
    if "" in organizations || |organizations| != 1 {
      return Rejected(NotOneOrganization);
    }
    var keys := KeysOf(records);
    UniqueCount(records);
    if (exists i :: 0 <= i < |records| && records[i].key == "") || |keys| != |set k | k in keys| {
      return Rejected(BadKeys);
    }
    var links := LinksUnder(rules, records);
    TallyPairs(rules, records);
    candidates := Insert(links, limit);
    forall pair | pair in Tally(links) ensures Tally(links)[pair] == RuleIds(rules, records, pair) {
      TallyExactly(rules, records, pair);
    }
  }

  /** The trusted ID of every record. */
  function IdsOfRecords(records: seq<Record>): Probabilistic.Ids {
    if records == [] then map[]
    else
      var last := records[|records| - 1];
      IdsOfRecords(records[..|records| - 1])[last.key := Value(last, "employee_id")]
  }

  lemma {:induction false} IdsCover(records: seq<Record>)
    ensures IdsOfRecords(records).Keys == KeySet(records)
  {
    if records == [] {
    } else {
      var n := |records| - 1;
      IdsCover(records[..n]);
      assert records == records[..n] + [records[n]];
    }
  }

  function ScoredPairs(order: seq<Pair>, score: (Key, Key) -> real): seq<Probabilistic.Scored> {
    seq(|order|, i requires 0 <= i < |order| => Probabilistic.Scored(order[i].0, order[i].1, score(order[i].0, order[i].1)))
  }

  /** One result for every pair of `order`, each with the status and the sizes that the loop
      gives it, which is the status that the final clusters give. */
  ghost predicate Reported(order: seq<Pair>, ids: Probabilistic.Ids, t: Probabilistic.Thresholds, score: (Key, Key) -> real,
                           results: seq<Probabilistic.Candidate>) {
    var cs := Sort(ScoredPairs(order, score), Probabilistic.HigherFirst);
    && Probabilistic.AllKnown(ids, cs) && |results| == |order|
    && Probabilistic.Reports(ids, t, cs, results)
    && Probabilistic.ReportsFinal(ids, t, cs, results)
  }

  lemma ScoredKnown(order: seq<Pair>, records: seq<Record>, rules: seq<Rule>, score: (Key, Key) -> real)
    requires forall pair :: pair in order ==> pair in BlockedPairs(rules, records)
    ensures Probabilistic.AllKnown(IdsOfRecords(records), ScoredPairs(order, score))
  {
    IdsCover(records);
    var scored := ScoredPairs(order, score);
    forall i | 0 <= i < |scored| ensures Probabilistic.Known(IdsOfRecords(records), scored[i]) {
      assert order[i] in order;
    }
  }

  lemma {:induction false} IdsOfRecordsAt(records: seq<Record>, i: nat)
    requires i < |records| && UniqueKeys(records)
    ensures records[i].key in IdsOfRecords(records)
    ensures IdsOfRecords(records)[records[i].key] == Value(records[i], "employee_id")
    decreases |records|
  {
    var n := |records| - 1;
    if i == n {
    } else {
      IdsOfRecordsAt(records[..n], i);
    }
  }

  /** The two records hold different employee IDs, neither of them blank. */
  ghost predicate DifferentEmployees(records: seq<Record>, a: Key, b: Key) {
    exists i, j :: 0 <= i < |records| && 0 <= j < |records| && records[i].key == a && records[j].key == b
                   && Value(records[i], "employee_id") != "" && Value(records[j], "employee_id") != ""
                   && Value(records[i], "employee_id") != Value(records[j], "employee_id")
  }

  lemma DifferentIds(records: seq<Record>, a: Key, b: Key)
    requires UniqueKeys(records) && DifferentEmployees(records, a, b)
    ensures var ids := IdsOfRecords(records);
            a in ids && b in ids && ids[a] != "" && ids[b] != "" && ids[a] != ids[b]
  {
    var i, j :| 0 <= i < |records| && 0 <= j < |records| && records[i].key == a && records[j].key == b
                && Value(records[i], "employee_id") != "" && Value(records[j], "employee_id") != ""
                && Value(records[i], "employee_id") != Value(records[j], "employee_id");
    IdsOfRecordsAt(records, i);
    IdsOfRecordsAt(records, j);
  }

  /** The pairs reported as automatic matches. */
  ghost function MatchedPairs(results: seq<Probabilistic.Candidate>): set<Pair> {
    set r | r in results && r.status == Probabilistic.AutoMatch :: (r.pair.left, r.pair.right)
  }

  /** A pair of different employees is reported as a conflict whatever its score, and no chain
      of automatic matches joins two of them. */
  ghost predicate EmployeesKeptApart(records: seq<Record>, results: seq<Probabilistic.Candidate>) {
    && (forall r :: r in results && DifferentEmployees(records, r.pair.left, r.pair.right) ==> r.status == Probabilistic.TrustedIdConflict)
    && (forall a, b {:trigger DifferentEmployees(records, a, b)} ::
          DifferentEmployees(records, a, b) ==> !Connected(MatchedPairs(results), a, b))
  }

  lemma {:induction false} MergedAreMatched(ids: Probabilistic.Ids, t: Probabilistic.Thresholds, cs: seq<Probabilistic.Scored>,
                                            results: seq<Probabilistic.Candidate>, n: nat)
    requires Probabilistic.AllKnown(ids, cs) && Probabilistic.Reports(ids, t, cs, results) && n <= |results|
    ensures Probabilistic.MergedPairs(ids, t, cs, n) == MatchedPairs(results[..n])
  {
    if n == 0 {
    } else {
      MergedAreMatched(ids, t, cs, results, n - 1);
      var front, last := results[..n - 1], results[n - 1];
      assert results[..n] == front + [last];
      Probabilistic.MergedNext(ids, t, cs, n - 1, last, MatchedPairs(front));
      MatchedNext(front, last);
    }
  }

  lemma MatchedNext(results: seq<Probabilistic.Candidate>, r: Probabilistic.Candidate)
    ensures MatchedPairs(results + [r]) ==
            MatchedPairs(results) + if r.status == Probabilistic.AutoMatch then {(r.pair.left, r.pair.right)} else {}
  {
    assert forall x :: x in results + [r] <==> x in results || x == r;
  }

  lemma KeptApart(records: seq<Record>, t: Probabilistic.Thresholds, cs: seq<Probabilistic.Scored>, results: seq<Probabilistic.Candidate>)
    requires UniqueKeys(records)
    requires var ids := IdsOfRecords(records);
             Probabilistic.AllKnown(ids, cs) && |results| == |cs| && Probabilistic.Reports(ids, t, cs, results)
             && Probabilistic.ReportsFinal(ids, t, cs, results)
    ensures EmployeesKeptApart(records, results)
  {
    var ids := IdsOfRecords(records);
    var final := Probabilistic.Final(ids, t, cs);
    forall r | r in results && DifferentEmployees(records, r.pair.left, r.pair.right) ensures r.status == Probabilistic.TrustedIdConflict {
      var i :| 0 <= i < |results| && results[i] == r;
      DifferentIds(records, r.pair.left, r.pair.right);
      assert r == Probabilistic.CandidateAt(ids, t, cs, i);
      assert Probabilistic.Bears(ids, final, final[cs[i].left], cs[i].left);
      assert Probabilistic.Bears(ids, final, final[cs[i].right], cs[i].right);
    }
    Probabilistic.AutoMatchesExplain(ids, t, cs, |cs|);
    Probabilistic.AfterInvariant(ids, t, cs, |cs|);
    MergedAreMatched(ids, t, cs, results, |cs|);
    assert results[..|cs|] == results;
    forall a, b | DifferentEmployees(records, a, b) ensures !Connected(MatchedPairs(results), a, b) {
      DifferentIds(records, a, b);
      assert Probabilistic.Bears(ids, final, final[a], a) && Probabilistic.Bears(ids, final, final[b], b);
    }
  }

  /** Every blocked pair has one result, with its score, in descending order of score; and the
      score of a result that is no conflict lies where its status says. */
  ghost predicate PairsAndScores(pairs: set<Pair>, t: Probabilistic.Thresholds, score: (Key, Key) -> real, results: seq<Probabilistic.Candidate>) {
    && (forall pair {:trigger HasResult(results, pair)} :: pair in pairs <==> HasResult(results, pair))
    && |results| == |pairs|
    && (forall i :: 0 <= i < |results| ==> results[i].pair.probability == score(results[i].pair.left, results[i].pair.right))
    && (forall i, j :: 0 <= i < j < |results| ==> results[i].pair.probability >= results[j].pair.probability)
    && (forall i :: 0 <= i < |results| ==> AsScored(t, results[i]))
  }

  ghost predicate HasResult(results: seq<Probabilistic.Candidate>, pair: Pair) {
    exists i :: 0 <= i < |results| && pair == (results[i].pair.left, results[i].pair.right)
  }

  predicate AsScored(t: Probabilistic.Thresholds, r: Probabilistic.Candidate) {
    match r.status
    case TrustedIdConflict => true
    case AutoMatch => r.pair.probability >= t.autoMatch
    case Review => t.reviewLow <= r.pair.probability < t.autoMatch
    case NoMatch => r.pair.probability < t.reviewLow && r.pair.probability < t.autoMatch
  }

  lemma ScoredFrom(order: seq<Pair>, score: (Key, Key) -> real, s: Probabilistic.Scored)
    ensures s in ScoredPairs(order, score) <==> (s.left, s.right) in order && s.probability == score(s.left, s.right)
  {
    var scored := ScoredPairs(order, score);
    if s in scored {
      var k :| 0 <= k < |scored| && scored[k] == s;
      assert order[k] == (s.left, s.right);
    }
    if (s.left, s.right) in order && s.probability == score(s.left, s.right) {
      var k :| 0 <= k < |order| && order[k] == (s.left, s.right);
      assert scored[k] == s;
    }
  }

  lemma SortedScores(scored: seq<Probabilistic.Scored>)
    ensures var cs := Sort(scored, Probabilistic.HigherFirst);
            && |cs| == |scored| && (forall s :: s in cs <==> s in scored)
            && forall i, j :: 0 <= i < j < |cs| ==> cs[i].probability >= cs[j].probability
  {
    var cs := Sort(scored, Probabilistic.HigherFirst);
    SameMembers(cs, scored);
    SortSorted(scored, Probabilistic.HigherFirst);
    forall i, j | 0 <= i < j < |cs| ensures cs[i].probability >= cs[j].probability {
      assert Probabilistic.HigherFirst(cs[i], cs[j]);
    }
  }

  lemma StatusAsScored(ids: Probabilistic.Ids, t: Probabilistic.Thresholds, cs: seq<Probabilistic.Scored>, i: nat)
    requires i < |cs| && Probabilistic.AllKnown(ids, cs)
    ensures AsScored(t, Probabilistic.CandidateAt(ids, t, cs, i)) && Probabilistic.CandidateAt(ids, t, cs, i).pair == cs[i]
  {
  }

  /** The results are the scored pairs, in the same places. */
  ghost predicate InPlace(cs: seq<Probabilistic.Scored>, t: Probabilistic.Thresholds, results: seq<Probabilistic.Candidate>) {
    |results| == |cs| && forall i :: 0 <= i < |cs| ==> results[i].pair == cs[i] && AsScored(t, results[i])
  }

  lemma ReportedInPlace(order: seq<Pair>, ids: Probabilistic.Ids, t: Probabilistic.Thresholds, score: (Key, Key) -> real,
                        results: seq<Probabilistic.Candidate>)
    requires Reported(order, ids, t, score, results)
    ensures InPlace(Sort(ScoredPairs(order, score), Probabilistic.HigherFirst), t, results)
  {
    var cs := Sort(ScoredPairs(order, score), Probabilistic.HigherFirst);
    SortedScores(ScoredPairs(order, score));
    forall i | 0 <= i < |cs| ensures results[i].pair == cs[i] && AsScored(t, results[i]) {
      StatusAsScored(ids, t, cs, i);
    }
  }

  lemma ResultFor(order: seq<Pair>, score: (Key, Key) -> real, cs: seq<Probabilistic.Scored>, t: Probabilistic.Thresholds,
                  results: seq<Probabilistic.Candidate>, pair: Pair)
    requires InPlace(cs, t, results) && forall s :: s in cs <==> s in ScoredPairs(order, score)
    ensures HasResult(results, pair) <==> pair in order
  {
    var s := Probabilistic.Scored(pair.0, pair.1, score(pair.0, pair.1));
    ScoredFrom(order, score, s);
    if pair in order {
      var i :| 0 <= i < |cs| && cs[i] == s;
      assert results[i].pair == s;
    }
    if HasResult(results, pair) {
      var i :| 0 <= i < |results| && pair == (results[i].pair.left, results[i].pair.right);
      assert results[i].pair in cs;
      ScoredFrom(order, score, results[i].pair);
    }
  }

  lemma ScoresReported(order: seq<Pair>, pairs: set<Pair>, ids: Probabilistic.Ids, t: Probabilistic.Thresholds, score: (Key, Key) -> real,
                       results: seq<Probabilistic.Candidate>)
    requires Distinct(order) && (forall pair :: pair in order <==> pair in pairs) && Reported(order, ids, t, score, results)
    ensures PairsAndScores(pairs, t, score, results)
  {
    var cs := Sort(ScoredPairs(order, score), Probabilistic.HigherFirst);
    SortedScores(ScoredPairs(order, score));
    ReportedInPlace(order, ids, t, score, results);
    forall pair ensures pair in pairs <==> HasResult(results, pair) {
      ResultFor(order, score, cs, t, results, pair);
    }
    forall i | 0 <= i < |results| ensures results[i].pair.probability == score(results[i].pair.left, results[i].pair.right) {
      assert cs[i] in cs;
      ScoredFrom(order, score, cs[i]);
    }
    DistinctPairsSize(order, pairs);
  }

  lemma {:induction false} DistinctPairsSize(order: seq<Pair>, pairs: set<Pair>)
    requires Distinct(order) && forall pair :: pair in order <==> pair in pairs
    ensures |order| == |pairs|
    decreases |order|
  {
    if order == [] {
      assert pairs == {};
    } else {
      var n := |order| - 1;
      assert order[n] in pairs;
      forall pair ensures pair in order[..n] <==> pair in pairs - {order[n]} {
        if pair in order && pair != order[n] {
          var i :| 0 <= i < |order| && order[i] == pair;
          assert order[..n][i] == pair;
        }
      }
      DistinctPairsSize(order[..n], pairs - {order[n]});
    }
  }

  /** A whole run: candidates, their scores, and the clustering loop over them. It is
      rejected exactly when candidate generation is; otherwise every blocked pair is
      reported once, and records of different employees are never matched. */
  method RunMatcher(records: seq<Record>, rules: seq<Rule>, limit: nat, t: Probabilistic.Thresholds, score: (Key, Key) -> real)
    returns (candidates: Candidates, results: seq<Probabilistic.Candidate>)
    requires forall r :: r in rules ==> !r.trusted
    ensures GeneratedFrom(candidates, records, rules, limit)
    ensures candidates.Proposed? ==> Reported(candidates.order, IdsOfRecords(records), t, score, results)
    ensures candidates.Proposed? ==> PairsAndScores(BlockedPairs(rules, records), t, score, results)
    ensures candidates.Proposed? ==> EmployeesKeptApart(records, results)
    ensures candidates.Rejected? ==> results == []
  {
    candidates := Generate(records, rules, limit);
    results := [];
    if candidates.Proposed? {
      var order := candidates.order;
      ScoredKnown(order, records, rules, score);
      results := Probabilistic.Run(IdsOfRecords(records), t, ScoredPairs(order, score));
      ScoresReported(order, BlockedPairs(rules, records), IdsOfRecords(records), t, score, results);
      KeptApart(records, t, Sort(ScoredPairs(order, score), Probabilistic.HigherFirst), results);
    }
  }
}
