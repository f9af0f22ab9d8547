/** The deterministic matcher: trusted rules link first, composite rules may link the
    rest unless that would join clusters with disjoint trusted keys. */
module Deterministic {
  import opened Keys
  import opened Collections
  import opened Partitions
  import opened Forests
  import opened Records
  import opened Composite

  datatype Error = MissingKeyOrOrganization | DuplicateKey | CrossOrganization
  datatype Result = Failed(error: Error) | Matched(clusters: map<Key, set<Key>>, links: seq<Link>, conflicts: seq<Link>)

  predicate ByPriority(a: Rule, b: Rule) {
    a.priority <= b.priority
  }

  function TrustedRules(rules: seq<Rule>): seq<Rule> {
    Sort(Where(rules, (r: Rule) => r.trusted), ByPriority)
  }

  function CompositeRules(rules: seq<Rule>): seq<Rule> {
    Sort(Where(rules, (r: Rule) => !r.trusted), ByPriority)
  }

  function KeySet(records: seq<Record>): set<Key> {
    set r | r in records :: r.key
  }

  // ----- Candidate links of rules, in the order the loops produce them -----

  function Labelled(pairs: seq<(Key, Key)>, rule: string): seq<Link> {
    seq(|pairs|, i requires 0 <= i < |pairs| => Link(pairs[i].0, pairs[i].1, rule))
  }

  /** Trusted rules chain the sorted members of a group, composite rules take all pairs. */
  function GroupLinks(rule: Rule, records: seq<Record>, v: RuleKey): seq<Link> {
    var members := GroupMembers(rule, records, v);
    Labelled(if rule.trusted then Adjacent(members) else Combinations(members), rule.id)
  }

  function GroupBlocks(rule: Rule, records: seq<Record>): seq<seq<Link>> {
    var order := GroupOrder(rule, records);
    seq(|order|, i requires 0 <= i < |order| => GroupLinks(rule, records, order[i]))
  }

  function LinksOfRule(rule: Rule, records: seq<Record>): seq<Link> {
    Flat(GroupBlocks(rule, records))
  }

  function RuleBlocks(rules: seq<Rule>, records: seq<Record>): seq<seq<Link>> {
    seq(|rules|, i requires 0 <= i < |rules| => LinksOfRule(rules[i], records))
  }

  function LinksOfRules(rules: seq<Rule>, records: seq<Record>): seq<Link> {
    Flat(RuleBlocks(rules, records))
  }

  ghost predicate FromGroup(rule: Rule, records: seq<Record>, link: Link, v: RuleKey) {
    v in GroupOrder(rule, records) && link in GroupLinks(rule, records, v)
  }

  ghost predicate FromRule(rule: Rule, records: seq<Record>, link: Link) {
    exists v :: FromGroup(rule, records, link, v)
  }

  lemma InLinksOfRule(rule: Rule, records: seq<Record>, link: Link)
    ensures link in LinksOfRule(rule, records) <==> FromRule(rule, records, link)
  {
    var order, blocks := GroupOrder(rule, records), GroupBlocks(rule, records);
    InFlat(blocks, link);
    if FromRule(rule, records, link) {
      var v :| FromGroup(rule, records, link, v);
      var i :| 0 <= i < |order| && order[i] == v;
      assert link in blocks[i];
    }
    if i :| 0 <= i < |blocks| && link in blocks[i] {
      assert FromGroup(rule, records, link, order[i]);
    }
  }

  lemma InLinksOfRules(rules: seq<Rule>, records: seq<Record>, link: Link)
    ensures link in LinksOfRules(rules, records) <==> exists rule :: rule in rules && FromRule(rule, records, link)
  {
    var blocks := RuleBlocks(rules, records);
    InFlat(blocks, link);
    if rule :| rule in rules && FromRule(rule, records, link) {
      var i :| 0 <= i < |rules| && rules[i] == rule;
      InLinksOfRule(rule, records, link);
      assert link in blocks[i];
    }
    if i :| 0 <= i < |blocks| && link in blocks[i] {
      InLinksOfRule(rules[i], records, link);
    }
  }

  lemma LabelledExactly(pairs: seq<(Key, Key)>, rule: string, link: Link)
    ensures link in Labelled(pairs, rule) <==> link.rule == rule && (link.left, link.right) in pairs
  {
    if link.rule == rule && (link.left, link.right) in pairs {
      var i :| 0 <= i < |pairs| && pairs[i] == (link.left, link.right);
      assert Labelled(pairs, rule)[i] == link;
    }
  }

  lemma LinkInMembers(trusted: bool, members: seq<Key>, link: Link)
    requires (link.left, link.right) in if trusted then Adjacent(members) else Combinations(members)
    ensures link.left in members && link.right in members
  {
    AdjacentExactly(members);
    CombinationsExactly(members);
    if !trusted {
      assert InOrder(members, link.left, link.right);
    }
  }

  lemma InGroupAgree(rule: Rule, records: seq<Record>, v: RuleKey, a: Key, b: Key)
    requires InGroup(rule, records, v, a) && InGroup(rule, records, v, b)
    ensures Agree(rule, records, a, b)
  {
    var i :| 0 <= i < |records| && KeyUnder(rule, records[i]) == Some(v) && records[i].key == a;
    var j :| 0 <= j < |records| && KeyUnder(rule, records[j]) == Some(v) && records[j].key == b;
    assert AgreeAt(rule, records, i, j);
  }

  /** A rule only proposes links between records that agree on its key. */
  lemma LinkAgrees(rule: Rule, records: seq<Record>, link: Link)
    requires FromRule(rule, records, link)
    ensures Agree(rule, records, link.left, link.right)
  {
    var v :| FromGroup(rule, records, link, v);
    var members := GroupMembers(rule, records, v);
    LabelledExactly(if rule.trusted then Adjacent(members) else Combinations(members), rule.id, link);
    LinkInMembers(rule.trusted, members, link);
    GroupMembersExactly(rule, records, v);
    InGroupAgree(rule, records, v, link.left, link.right);
  }

  lemma AgreeInGroup(rule: Rule, records: seq<Record>, a: Key, b: Key) returns (v: RuleKey)
    requires Agree(rule, records, a, b)
    ensures v in GroupOrder(rule, records)
    ensures a in GroupMembers(rule, records, v) && b in GroupMembers(rule, records, v)
  {
    var i, j :| AgreeAt(rule, records, i, j) && records[i].key == a && records[j].key == b;
    v := KeyUnder(rule, records[i]).value;
    GroupOrderExactly(rule, records);
    GroupMembersExactly(rule, records, v);
    assert InGroup(rule, records, v, a) && InGroup(rule, records, v, b);
  }

  lemma AscendingPair(s: seq<Key>, a: Key, b: Key)
    requires forall i, j :: 0 <= i < j < |s| ==> Precedes(s[i], s[j])
    requires a in s && b in s && Precedes(a, b)
    ensures (a, b) in Combinations(s)
  {
    var i, j :| 0 <= i < |s| && 0 <= j < |s| && s[i] == a && s[j] == b;
    PrecedesAsymmetric(a, b);
    assert InOrder(s, a, b);
    CombinationsExactly(s);
  }

  /** A composite rule proposes every pair of records that agree on its key, lesser key first. */
  lemma AgreeingPairProposed(rule: Rule, records: seq<Record>, a: Key, b: Key)
    requires UniqueKeys(records) && !rule.trusted && Agree(rule, records, a, b) && Precedes(a, b)
    ensures FromRule(rule, records, Link(a, b, rule.id))
  {
    var v := AgreeInGroup(rule, records, a, b);
    var members := GroupMembers(rule, records, v);
    GroupMembersAscending(rule, records, v);
    AscendingPair(members, a, b);
    LabelledExactly(Combinations(members), rule.id, Link(a, b, rule.id));
    assert FromGroup(rule, records, Link(a, b, rule.id), v);
  }

  lemma ProposedAscending(rule: Rule, records: seq<Record>, link: Link)
    requires UniqueKeys(records) && !rule.trusted && FromRule(rule, records, link)
    ensures Precedes(link.left, link.right) && link.rule == rule.id
  {
    var v :| FromGroup(rule, records, link, v);
    var members := GroupMembers(rule, records, v);
    LabelledExactly(Combinations(members), rule.id, link);
    CombinationsExactly(members);
    assert InOrder(members, link.left, link.right);
    GroupMembersAscending(rule, records, v);
  }

  // ----- The trusted phase -----

  ghost predicate Between(keys: set<Key>, link: Link) {
    link.left in keys && link.right in keys
  }

  ghost predicate AllBetween(keys: set<Key>, links: seq<Link>) {
    forall i {:trigger Between(keys, links[i])} :: 0 <= i < |links| ==> Between(keys, links[i])
  }

  lemma TakeBetween(keys: set<Key>, links: seq<Link>, n: nat)
    requires AllBetween(keys, links) && n <= |links|
    ensures AllBetween(keys, links[..n])
  {
    forall i {:trigger Between(keys, links[..n][i])} | 0 <= i < n ensures Between(keys, links[..n][i]) {
      assert Between(keys, links[i]);
    }
  }

  /** The partition that a sequence of unions leaves behind. */
  ghost function MergeAll(keys: set<Key>, links: seq<Link>): (q: Partition)
    requires AllBetween(keys, links)
    ensures q.Keys == keys
  {
    if links == [] then Discrete(keys)
    else
      var last := links[|links| - 1];
      assert Between(keys, last);
      TakeBetween(keys, links, |links| - 1);
      Merge(MergeAll(keys, links[..|links| - 1]), last.left, last.right)
  }

  lemma MergeAllAppend(keys: set<Key>, links: seq<Link>, link: Link)
    requires AllBetween(keys, links) && Between(keys, link)
    ensures AllBetween(keys, links + [link])
    ensures MergeAll(keys, links + [link]) == Merge(MergeAll(keys, links), link.left, link.right)
  {
    var more := links + [link];
    forall i {:trigger Between(keys, more[i])} | 0 <= i < |more| ensures Between(keys, more[i]) {
      assert i < |links| ==> Between(keys, links[i]);
    }
    assert (links + [link])[..|links|] == links;
  }

  /** Any sequence of unions: keys share a root exactly when the unions made connect them. */
  lemma {:induction false} MergeAllExplained(keys: set<Key>, links: seq<Link>)
    requires AllBetween(keys, links)
    ensures Valid(MergeAll(keys, links)) && Explains(Pairs(links), MergeAll(keys, links))
  {
    if links == [] {
      DiscreteExplained(keys);
      assert Pairs([]) == {};
    } else {
      var front, last := links[..|links| - 1], links[|links| - 1];
      assert links == front + [last] && Between(keys, last);
      TakeBetween(keys, links, |links| - 1);
      MergeAllExplained(keys, front);
      var p := MergeAll(keys, front);
      MergeValid(p, last.left, last.right);
      ExplainsMerge(Pairs(front), p, last.left, last.right);
      PairsAppend(front, last);
    }
  }

  lemma AgreeBetween(rule: Rule, records: seq<Record>, link: Link)
    requires FromRule(rule, records, link)
    ensures Between(KeySet(records), link)
  {
    LinkAgrees(rule, records, link);
    var i, j :| AgreeAt(rule, records, i, j) && records[i].key == link.left && records[j].key == link.right;
    assert records[i] in records && records[j] in records;
  }

  lemma RulesBetween(rules: seq<Rule>, records: seq<Record>)
    ensures AllBetween(KeySet(records), LinksOfRules(rules, records))
  {
    var links := LinksOfRules(rules, records);
    forall i {:trigger Between(KeySet(records), links[i])} | 0 <= i < |links| ensures Between(KeySet(records), links[i]) {
      InLinksOfRules(rules, records, links[i]);
      var rule :| rule in rules && FromRule(rule, records, links[i]);
      AgreeBetween(rule, records, links[i]);
    }
  }

  ghost function TrustedPartition(rules: seq<Rule>, records: seq<Record>): (p: Partition)
    ensures p.Keys == KeySet(records)
  {
    RulesBetween(rules, records);
    MergeAll(KeySet(records), LinksOfRules(rules, records))
  }

  /** The pairs of records that agree on the key of some rule. */
  ghost function AgreePairs(rules: seq<Rule>, records: seq<Record>): set<Pair> {
    set a, b | a in KeySet(records) && b in KeySet(records) && (exists rule :: rule in rules && Agree(rule, records, a, b)) :: (a, b)
  }

  lemma {:induction false} ChainConnected(links: set<Pair>, s: seq<Key>, i: nat, j: nat)
    requires i <= j < |s|
    requires forall x :: x in Adjacent(s) ==> x in links
    ensures Connected(links, s[i], s[j])
    decreases j
  {
    if i == j {
      ConnectedRefl(links, s[i]);
    } else {
      ChainConnected(links, s, i, j - 1);
      AdjacentExactly(s);
      assert Adjacent(s)[j - 1] in Adjacent(s);
      ConnectedLink(links, s[j - 1], s[j]);
      ConnectedTrans(links, s[i], s[j - 1], s[j]);
    }
  }

  lemma AgreeingConnected(rules: seq<Rule>, records: seq<Record>, rule: Rule, a: Key, b: Key)
    requires rule in rules && rule.trusted && Agree(rule, records, a, b)
    ensures Connected(Pairs(LinksOfRules(rules, records)), a, b)
  {
    var v := AgreeInGroup(rule, records, a, b);
    var members, links := GroupMembers(rule, records, v), LinksOfRules(rules, records);
    forall x | x in Adjacent(members) ensures x in Pairs(links) {
      var l := Link(x.0, x.1, rule.id);
      LabelledExactly(Adjacent(members), rule.id, l);
      assert FromGroup(rule, records, l, v);
      InLinksOfRules(rules, records, l);
      assert l in links;
    }
    var i, j :| 0 <= i < |members| && 0 <= j < |members| && members[i] == a && members[j] == b;
    if i <= j {
      ChainConnected(Pairs(links), members, i, j);
    } else {
      ChainConnected(Pairs(links), members, j, i);
      ConnectedSym(Pairs(links), b, a);
    }
  }

  /** The trusted phase clusters exactly the records connected through equal trusted keys. */
  lemma TrustedPhaseExact(rules: seq<Rule>, records: seq<Record>)
    requires forall r :: r in rules ==> r.trusted
    ensures Valid(TrustedPartition(rules, records))
    ensures Explains(Pairs(LinksOfRules(rules, records)), TrustedPartition(rules, records))
    ensures Explains(AgreePairs(rules, records), TrustedPartition(rules, records))
  {
    var links, t, agree := Pairs(LinksOfRules(rules, records)), TrustedPartition(rules, records), AgreePairs(rules, records);
    RulesBetween(rules, records);
    MergeAllExplained(KeySet(records), LinksOfRules(rules, records));
    forall x | x in agree ensures Connected(links, x.0, x.1) {
      var rule :| rule in rules && Agree(rule, records, x.0, x.1);
      AgreeingConnected(rules, records, rule, x.0, x.1);
    }
    forall x | x in links ensures Connected(agree, x.0, x.1) {
      var l :| l in LinksOfRules(rules, records) && x == (l.left, l.right);
      InLinksOfRules(rules, records, l);
      var rule :| rule in rules && FromRule(rule, records, l);
      LinkAgrees(rule, records, l);
      AgreeBetween(rule, records, l);
      ConnectedLink(agree, x.0, x.1);
    }
    ExplainsTransfer(links, agree, t);
  }

  lemma ExplainsTransfer(links: set<Pair>, more: set<Pair>, p: Partition)
    requires Explains(links, p) && Within(more, p.Keys)
    requires forall x :: x in links ==> Connected(more, x.0, x.1)
    requires forall x :: x in more ==> Connected(links, x.0, x.1)
    ensures Explains(more, p)
  {
    forall a, b | a in p && b in p ensures p[a] == p[b] <==> Connected(more, a, b) {
      if Connected(links, a, b) {
        ConnectedTransfer(links, more, a, b);
      }
      if Connected(more, a, b) {
        ConnectedTransfer(more, links, a, b);
      }
    }
  }

  lemma AgreeSameMembers(rule: Rule, records: seq<Record>, others: seq<Record>, a: Key, b: Key)
    requires forall r :: r in records ==> r in others
    requires Agree(rule, records, a, b)
    ensures Agree(rule, others, a, b)
  {
    var i, j :| AgreeAt(rule, records, i, j) && records[i].key == a && records[j].key == b;
    assert records[i] in others && records[j] in others;
    var k, l :| 0 <= k < |others| && 0 <= l < |others| && others[k] == records[i] && others[l] == records[j];
    assert AgreeAt(rule, others, k, l);
  }

  /** The trusted-phase partition does not depend on the order of records or rules. */
  lemma TrustedPhaseOrderFree(rules: seq<Rule>, records: seq<Record>, rules': seq<Rule>, records': seq<Record>)
    requires forall r :: r in rules ==> r.trusted
    requires forall r :: r in rules <==> r in rules'
    requires forall r :: r in records <==> r in records'
    ensures TrustedPartition(rules, records) == TrustedPartition(rules', records')
  {
    TrustedPhaseExact(rules, records);
    TrustedPhaseExact(rules', records');
    assert KeySet(records) == KeySet(records');
    forall a, b ensures (a, b) in AgreePairs(rules, records) <==> (a, b) in AgreePairs(rules', records') {
      if rule :| rule in rules && Agree(rule, records, a, b) {
        AgreeSameMembers(rule, records, records', a, b);
      }
      if rule :| rule in rules' && Agree(rule, records', a, b) {
        AgreeSameMembers(rule, records', records, a, b);
      }
    }
    assert AgreePairs(rules, records) == AgreePairs(rules', records');
    SameLinksSamePartition(AgreePairs(rules, records), TrustedPartition(rules, records), TrustedPartition(rules', records'));
  }

  // ----- Trusted keys and the whole match -----

  function TrustedKeysOf(rules: seq<Rule>, r: Record): set<RuleKey> {
    set rule | rule in rules && KeyUnder(rule, r).Some? :: KeyUnder(rule, r).value
  }

  /** The trusted keys of every record of the batch. */
  function TrustedKeys(rules: seq<Rule>, records: seq<Record>): Trusted {
    if records == [] then map[]
    else
      var last := records[|records| - 1];
      TrustedKeys(rules, records[..|records| - 1])[last.key := TrustedKeysOf(rules, last)]
  }

  lemma {:induction false} TrustedKeysAt(rules: seq<Rule>, records: seq<Record>, i: nat)
    requires i < |records| && UniqueKeys(records)
    ensures records[i].key in TrustedKeys(rules, records)
    ensures TrustedKeys(rules, records)[records[i].key] == TrustedKeysOf(rules, records[i])
    decreases |records|
  {
    var n := |records| - 1;
    if i < n {
      TrustedKeysAt(rules, records[..n], i);
    }
  }

  lemma {:induction false} TrustedKeysFrom(rules: seq<Rule>, records: seq<Record>, k: Key)
    requires k in TrustedKeys(rules, records)
    ensures exists i :: 0 <= i < |records| && records[i].key == k
    decreases |records|
  {
    var n := |records| - 1;
    if k != records[n].key {
      TrustedKeysFrom(rules, records[..n], k);
      var i :| 0 <= i < n && records[..n][i].key == k;
      assert records[i].key == k;
    }
  }

  ghost function CompositeLinks(rules: seq<Rule>, records: seq<Record>): (links: seq<Link>)
    ensures AllJoin(TrustedPartition(TrustedRules(rules), records), links)
  {
    var t, links := TrustedPartition(TrustedRules(rules), records), LinksOfRules(CompositeRules(rules), records);
    RulesBetween(CompositeRules(rules), records);
    assert AllJoin(t, links) by {
      forall i {:trigger Joins(t, links[i])} | 0 <= i < |links| ensures Joins(t, links[i]) {
        assert Between(KeySet(records), links[i]);
      }
    }
    links
  }

  /** The result of the two phases. */
  ghost function Match(rules: seq<Rule>, records: seq<Record>): (o: Outcome)
    ensures o.p.Keys == KeySet(records)
  {
    var trusted := TrustedRules(rules);
    Run(TrustedKeys(trusted, records), Start(TrustedPartition(trusted, records)), CompositeLinks(rules, records))
  }

  ghost predicate SameTuple(r: Rule, s: Rule, a: Record, b: Record) {
    KeyUnder(r, a).Some? && KeyUnder(r, a) == KeyUnder(s, b)
  }

  /** No key tuple is produced by two different rules. */
  ghost predicate NoSharedTuple(rules: seq<Rule>, records: seq<Record>) {
    forall r, s, a, b ::
      r in rules && s in rules && a in records && b in records && SameTuple(r, s, a, b) ==> r == s
  }

  lemma InTrustedRules(rules: seq<Rule>, r: Rule)
    ensures r in TrustedRules(rules) <==> r in rules && r.trusted
  {
    var f := (r: Rule) => r.trusted;
    WhereExactly(rules, f);
    SameMembers(TrustedRules(rules), Where(rules, f));
  }

  lemma InCompositeRules(rules: seq<Rule>, r: Rule)
    ensures r in CompositeRules(rules) <==> r in rules && !r.trusted
  {
    var f := (r: Rule) => !r.trusted;
    WhereExactly(rules, f);
    SameMembers(CompositeRules(rules), Where(rules, f));
  }

  lemma TrustedOnly(rules: seq<Rule>)
    ensures forall r :: r in TrustedRules(rules) ==> r.trusted
  {
    forall r | r in TrustedRules(rules) ensures r.trusted {
      InTrustedRules(rules, r);
    }
  }

  lemma HoldersAgree(rules: seq<Rule>, records: seq<Record>, j: Key, k: Key, v: RuleKey)
    requires UniqueKeys(records) && NoSharedTuple(rules, records)
    requires j in TrustedKeys(rules, records) && v in TrustedKeys(rules, records)[j]
    requires k in TrustedKeys(rules, records) && v in TrustedKeys(rules, records)[k]
    ensures exists rule :: rule in rules && Agree(rule, records, j, k)
  {
    TrustedKeysFrom(rules, records, j);
    TrustedKeysFrom(rules, records, k);
    var i :| 0 <= i < |records| && records[i].key == j;
    var l :| 0 <= l < |records| && records[l].key == k;
    TrustedKeysAt(rules, records, i);
    TrustedKeysAt(rules, records, l);
    var r :| r in rules && KeyUnder(r, records[i]) == Some(v);
    var s :| s in rules && KeyUnder(s, records[l]) == Some(v);
    assert SameTuple(r, s, records[i], records[l]) && records[i] in records && records[l] in records;
    assert AgreeAt(r, records, i, l);
  }

  /** Then trusted-phase clusters share no trusted key. */
  lemma NoSharedTupleSeparates(rules: seq<Rule>, records: seq<Record>)
    requires UniqueKeys(records) && NoSharedTuple(rules, records) && forall r :: r in rules ==> r.trusted
    ensures Separated(TrustedKeys(rules, records), TrustedPartition(rules, records))
  {
    var vals, t := TrustedKeys(rules, records), TrustedPartition(rules, records);
    TrustedPhaseExact(rules, records);
    forall a, b | a in t && b in t && Shares(vals, t, a, b) ensures t[a] == t[b] {
      var j, k, v :| Holds(vals, t, t[a], j, v) && Holds(vals, t, t[b], k, v);
      HoldersAgree(rules, records, j, k, v);
      assert (j, k) in AgreePairs(rules, records);
      ConnectedLink(AgreePairs(rules, records), j, k);
    }
  }

  ghost predicate Together(o: Outcome, a: Key, b: Key) {
    a in o.p && b in o.p && o.p[a] == o.p[b]
  }

  lemma ProposedAt(rules: seq<Rule>, records: seq<Record>, rule: Rule, a: Key, b: Key) returns (i: nat)
    requires UniqueKeys(records) && rule in rules && !rule.trusted
    requires Agree(rule, records, a, b) && Precedes(a, b)
    ensures i < |CompositeLinks(rules, records)| && CompositeLinks(rules, records)[i] == Link(a, b, rule.id)
  {
    InCompositeRules(rules, rule);
    AgreeingPairProposed(rule, records, a, b);
    InLinksOfRules(CompositeRules(rules), records, Link(a, b, rule.id));
    assert Link(a, b, rule.id) in CompositeLinks(rules, records);
    i :| 0 <= i < |CompositeLinks(rules, records)| && CompositeLinks(rules, records)[i] == Link(a, b, rule.id);
  }

  /** Two records that agree on a composite rule end in one cluster or in a recorded
      conflict of that rule, whatever the rules are. */
  lemma AgreeingPairSettled(rules: seq<Rule>, records: seq<Record>, rule: Rule, a: Key, b: Key)
    requires UniqueKeys(records) && rule in rules && !rule.trusted
    requires Agree(rule, records, a, b) && Precedes(a, b)
    ensures Together(Match(rules, records), a, b) || Link(a, b, rule.id) in Match(rules, records).conflicts
  {
    var i := ProposedAt(rules, records, rule, a, b);
    var trusted, links := TrustedRules(rules), CompositeLinks(rules, records);
    TrustedOnly(rules);
    TrustedPhaseExact(trusted, records);
    EveryLinkSettled(TrustedKeys(trusted, records), TrustedPartition(trusted, records), links, |links|, i);
  }

  /** When sharing of trusted keys between trusted-phase clusters is transitive, exactly one
      of the two holds. */
  lemma AgreeingPairExclusive(rules: seq<Rule>, records: seq<Record>, rule: Rule, a: Key, b: Key)
    requires UniqueKeys(records) && rule in rules && !rule.trusted
    requires Agree(rule, records, a, b) && Precedes(a, b)
    requires SharingTransitive(TrustedKeys(TrustedRules(rules), records), TrustedPartition(TrustedRules(rules), records))
    ensures Together(Match(rules, records), a, b) != (Link(a, b, rule.id) in Match(rules, records).conflicts)
  {
    var i := ProposedAt(rules, records, rule, a, b);
    var trusted, links := TrustedRules(rules), CompositeLinks(rules, records);
    var vals, t := TrustedKeys(trusted, records), TrustedPartition(trusted, records);
    TrustedOnly(rules);
    TrustedPhaseExact(trusted, records);
    TransitiveExclusive(vals, t, links);
    assert Joins(t, links[i]);
  }

  /** In particular when no tuple is shared between trusted rules. */
  lemma ExclusiveWithoutSharedTuples(rules: seq<Rule>, records: seq<Record>, rule: Rule, a: Key, b: Key)
    requires UniqueKeys(records) && rule in rules && !rule.trusted
    requires Agree(rule, records, a, b) && Precedes(a, b)
    requires NoSharedTuple(TrustedRules(rules), records)
    ensures Together(Match(rules, records), a, b) != (Link(a, b, rule.id) in Match(rules, records).conflicts)
  {
    var trusted := TrustedRules(rules);
    TrustedOnly(rules);
    NoSharedTupleSeparates(trusted, records);
    SeparatedIsTransitive(TrustedKeys(trusted, records), TrustedPartition(trusted, records));
    AgreeingPairExclusive(rules, records, rule, a, b);
  }

  /** And then every final cluster holds at most one trusted-phase cluster that carries keys. */
  lemma OneTrustedIdentityPerCluster(rules: seq<Rule>, records: seq<Record>)
    requires UniqueKeys(records) && NoSharedTuple(TrustedRules(rules), records)
    ensures OneCarrier(TrustedKeys(TrustedRules(rules), records), TrustedPartition(TrustedRules(rules), records),
                       Match(rules, records).p)
  {
    var trusted := TrustedRules(rules);
    TrustedOnly(rules);
    TrustedPhaseExact(trusted, records);
    NoSharedTupleSeparates(trusted, records);
    SeparatedOneCarrier(TrustedKeys(trusted, records), TrustedPartition(trusted, records), CompositeLinks(rules, records));
  }

  /** The links reported, trusted and composite, connect exactly the records that share a
      cluster; and the composite links account for every cluster lost since the trusted phase. */
  lemma LinksExplainClusters(rules: seq<Rule>, records: seq<Record>)
    ensures var o, trusted := Match(rules, records), TrustedRules(rules);
            && Explains(Pairs(LinksOfRules(trusted, records)) + Pairs(o.links), o.p)
            && |Roots(o.p)| == |Roots(TrustedPartition(trusted, records))| - |o.links|
  {
    var trusted, links := TrustedRules(rules), CompositeLinks(rules, records);
    var vals, t := TrustedKeys(trusted, records), TrustedPartition(trusted, records);
    TrustedOnly(rules);
    TrustedPhaseExact(trusted, records);
    LinksExplain(vals, Pairs(LinksOfRules(trusted, records)), t, links, |links|);
    LinksCount(vals, t, links, |links|);
  }

  // ----- The program -----

  ghost predicate Admissible(records: seq<Record>) {
    && (forall r :: r in records ==> r.key != "" && r.organization != "")
    && UniqueKeys(records)
    && (forall r, s :: r in records && s in records ==> r.organization == s.organization)
  }

  /** What is wrong with record `n`, seen after the records before it. */
  ghost function RecordDefect(records: seq<Record>, n: nat): Option<Error>
    requires n < |records|
  {
    if records[n].key == "" || records[n].organization == "" then Some(MissingKeyOrOrganization)
    else if exists m :: 0 <= m < n && records[m].key == records[n].key then Some(DuplicateKey)
    else None
  }

  ghost predicate SoundBefore(records: seq<Record>, n: nat)
    requires n <= |records|
  {
    forall m :: 0 <= m < n ==> RecordDefect(records, m).None?
  }

  ghost predicate FirstDefect(records: seq<Record>, n: nat, error: Option<Error>) {
    n < |records| && SoundBefore(records, n) && RecordDefect(records, n) == error
  }

  lemma SoundRecords(records: seq<Record>)
    ensures SoundBefore(records, |records|) <==>
            (forall r :: r in records ==> r.key != "" && r.organization != "") && UniqueKeys(records)
  {
    if SoundBefore(records, |records|) {
      forall i, j | 0 <= i < j < |records| ensures records[i].key != records[j].key {
        assert RecordDefect(records, j).None?;
      }
      forall r | r in records ensures r.key != "" && r.organization != "" {
        var m :| 0 <= m < |records| && records[m] == r;
        assert RecordDefect(records, m).None?;
      }
    }
  }

  /** The checks of a batch: the first defective record decides, and organizations are
      compared only when there is none. */
  method Admit(records: seq<Record>) returns (error: Option<Error>)
    ensures error.None? <==> Admissible(records)
    ensures error == Some(CrossOrganization) ==> SoundBefore(records, |records|)
    ensures error.Some? && error.value != CrossOrganization ==> exists n :: FirstDefect(records, n, error)
  {
    var keys: set<Key>, organizations: set<string> := {}, {};
    for n := 0 to |records|
      invariant SoundBefore(records, n)
      invariant forall k :: k in keys <==> exists m :: 0 <= m < n && records[m].key == k
      invariant organizations == set r | r in records[..n] :: r.organization
    {
      var record := records[n];
      assert records[..n + 1] == records[..n] + [record];
      if record.key == "" || record.organization == "" {
        DefectRefuses(records, n);
        return Some(MissingKeyOrOrganization);
      }
      if record.key in keys {
        DefectRefuses(records, n);
        return Some(DuplicateKey);
      }
      keys, organizations := keys + {record.key}, organizations + {record.organization};
    }
    assert records[..|records|] == records;
    SoundRecords(records);
    if |organizations| > 1 {
      CrossOrganizations(records, organizations);
      return Some(CrossOrganization);
    }
    OneOrganization(records, organizations);
    return None;
  }

  lemma DefectRefuses(records: seq<Record>, n: nat)
    requires n < |records| && SoundBefore(records, n) && RecordDefect(records, n).Some?
    ensures !Admissible(records) && FirstDefect(records, n, RecordDefect(records, n))
  {
    SoundRecords(records);
  }

  lemma CrossOrganizations(records: seq<Record>, organizations: set<string>)
    requires organizations == (set r | r in records :: r.organization) && |organizations| > 1
    ensures !Admissible(records)
  {
    var x :| x in organizations;
    assert organizations - {x} != {} by { assert |organizations - {x}| == |organizations| - 1; }
    var y :| y in organizations - {x};
    var r :| r in records && r.organization == x;
    var s :| s in records && s.organization == y;
  }

  lemma TwoInSet<T>(s: set<T>, x: T, y: T)
    requires x in s && y in s && x != y
    ensures |s| >= 2
  {
    assert s == {x, y} + (s - {x, y});
  }

  lemma OneOrganization(records: seq<Record>, organizations: set<string>)
    requires organizations == (set r | r in records :: r.organization) && |organizations| <= 1
    ensures forall r, s :: r in records && s in records ==> r.organization == s.organization
  {
    forall r, s | r in records && s in records ensures r.organization == s.organization {
      assert r.organization in organizations && s.organization in organizations;
      if r.organization != s.organization {
        TwoInSet(organizations, r.organization, s.organization);
      }
    }
  }

  ghost predicate Joined(keys: set<Key>, links: seq<Link>, p: Partition) {
    AllBetween(keys, links) && p == MergeAll(keys, links)
  }

  method Join(uf: UnionFind, ghost keys: set<Key>, links: seq<Link>, link: Link) returns (more: seq<Link>)
    requires uf.Valid() && Joined(keys, links, uf.clusters) && Between(keys, link)
    modifies uf
    ensures uf.Valid() && more == links + [link] && Joined(keys, more, uf.clusters)
  {
    MergeAllAppend(keys, links, link);
    var _ := uf.Union(link.left, link.right);
    more := links + [link];
  }

  /** Neighbours in a sorted group are united. */
  method LinkGroup(uf: UnionFind, ghost keys: set<Key>, links: seq<Link>, members: seq<Key>, id: string) returns (more: seq<Link>)
    requires uf.Valid() && Joined(keys, links, uf.clusters) && AllBetween(keys, Labelled(Adjacent(members), id))
    modifies uf
    ensures uf.Valid() && more == links + Labelled(Adjacent(members), id) && Joined(keys, more, uf.clusters)
  {
    more := links;
    var pairs := Adjacent(members);
    ghost var block := Labelled(pairs, id);
    for j := 0 to |pairs|
      invariant uf.Valid() && Joined(keys, more, uf.clusters)
      invariant more == links + block[..j]
    {
      var link := Link(pairs[j].0, pairs[j].1, id);
      assert link == block[j] && Between(keys, block[j]);
      more := Join(uf, keys, more, link);
      TakeNext(links, block, j);
    }
    assert block[..|pairs|] == block;
  }

  lemma BlockBetween(rule: Rule, records: seq<Record>, i: nat)
    requires i < |GroupBlocks(rule, records)|
    ensures AllBetween(KeySet(records), GroupBlocks(rule, records)[i])
  {
    var block := GroupBlocks(rule, records)[i];
    forall j {:trigger Between(KeySet(records), block[j])} | 0 <= j < |block| ensures Between(KeySet(records), block[j]) {
      assert FromGroup(rule, records, block[j], GroupOrder(rule, records)[i]);
      AgreeBetween(rule, records, block[j]);
    }
  }

  /** The trusted loop for one rule, group by group. */
  method LinkRule(uf: UnionFind, ghost keys: set<Key>, links: seq<Link>, rule: Rule, records: seq<Record>) returns (more: seq<Link>)
    requires uf.Valid() && Joined(keys, links, uf.clusters) && keys == KeySet(records) && rule.trusted
    modifies uf
    ensures uf.Valid() && more == links + LinksOfRule(rule, records) && Joined(keys, more, uf.clusters)
  {
    ghost var blocks := GroupBlocks(rule, records);
    var groups := SortedGroups(rule, records);
    more := links;
    for i := 0 to |groups|
      invariant uf.Valid() && Joined(keys, more, uf.clusters)
      invariant more == links + Flat(blocks[..i])
    {
      BlockBetween(rule, records, i);
      assert blocks[i] == Labelled(Adjacent(groups[i]), rule.id);
      more := LinkGroup(uf, keys, more, groups[i], rule.id);
      FlatNext(blocks, i);
    }
    assert blocks[..|groups|] == blocks;
  }

  method TrustedPhase(uf: UnionFind, rules: seq<Rule>, records: seq<Record>) returns (links: seq<Link>)
    requires uf.Valid() && uf.clusters == Discrete(KeySet(records)) && forall r :: r in rules ==> r.trusted
    modifies uf
    ensures uf.Valid() && links == LinksOfRules(rules, records)
    ensures uf.clusters == TrustedPartition(rules, records)
  {
    ghost var keys, blocks := KeySet(records), RuleBlocks(rules, records);
    links := [];
    for i := 0 to |rules|
      invariant uf.Valid() && links == Flat(blocks[..i]) && Joined(keys, links, uf.clusters)
    {
      links := LinkRule(uf, keys, links, rules[i], records);
      FlatNext(blocks, i);
    }
    assert blocks[..|rules|] == blocks;
  }

  ghost predicate HeldAt(rules: seq<Rule>, records: seq<Record>, p: Partition, root: Key, v: RuleKey, i: int) {
    && 0 <= i < |records| && records[i].key in p && p[records[i].key] == root
    && v in TrustedKeysOf(rules, records[i])
  }

  lemma HeldIsHolds(rules: seq<Rule>, records: seq<Record>, p: Partition, root: Key, v: RuleKey)
    requires UniqueKeys(records)
    ensures (exists i :: HeldAt(rules, records, p, root, v, i)) <==>
            Present(TrustedKeys(rules, records), p, root, v)
  {
    var vals := TrustedKeys(rules, records);
    if i :| HeldAt(rules, records, p, root, v, i) {
      TrustedKeysAt(rules, records, i);
      assert Holds(vals, p, root, records[i].key, v);
    }
    if k :| Holds(vals, p, root, k, v) {
      TrustedKeysFrom(rules, records, k);
      var i :| 0 <= i < |records| && records[i].key == k;
      TrustedKeysAt(rules, records, i);
      assert HeldAt(rules, records, p, root, v, i);
    }
  }

  ghost function UnionUpTo(sets: seq<set<RuleKey>>, n: nat): set<RuleKey>
    requires n <= |sets|
  {
    if n == 0 then {} else UnionUpTo(sets, n - 1) + sets[n - 1]
  }

  lemma {:induction false} InUnion(sets: seq<set<RuleKey>>, n: nat, v: RuleKey)
    requires n <= |sets|
    ensures v in UnionUpTo(sets, n) <==> exists i :: 0 <= i < n && v in sets[i]
  {
    if n == 0 {
    } else {
      InUnion(sets, n - 1, v);
    }
  }

  /** The trusted keys of a record, if it is in the cluster of `root`. */
  ghost function Own(rules: seq<Rule>, r: Record, p: Partition, root: Key): set<RuleKey> {
    if r.key in p && p[r.key] == root then TrustedKeysOf(rules, r) else {}
  }

  ghost function Owned(rules: seq<Rule>, records: seq<Record>, p: Partition, root: Key): seq<set<RuleKey>> {
    seq(|records|, i requires 0 <= i < |records| => Own(rules, records[i], p, root))
  }

  lemma ValuesArePresent(rules: seq<Rule>, records: seq<Record>, p: Partition, root: Key)
    requires UniqueKeys(records)
    ensures forall v :: v in UnionUpTo(Owned(rules, records, p, root), |records|) <==> Present(TrustedKeys(rules, records), p, root, v)
  {
    var sets := Owned(rules, records, p, root);
    forall v ensures v in UnionUpTo(sets, |records|) <==> Present(TrustedKeys(rules, records), p, root, v) {
      HeldIsHolds(rules, records, p, root, v);
      InUnion(sets, |records|, v);
      assert forall i :: 0 <= i < |records| ==> (v in sets[i] <==> HeldAt(rules, records, p, root, v, i));
    }
  }

  method TrustedKeysByRule(rules: seq<Rule>, record: Record) returns (values: set<RuleKey>)
    ensures values == TrustedKeysOf(rules, record)
  {
    values := {};
    for n := 0 to |rules|
      invariant values == TrustedKeysOf(rules[..n], record)
    {
      assert rules[..n + 1] == rules[..n] + [rules[n]];
      var key := KeyUnder(rules[n], record);
      if key.Some? {
        values := values + {key.value};
      }
    }
    assert rules[..|rules|] == rules;
  }

  /** What one record adds to the values of the cluster of `root`. */
  method Contribution(uf: UnionFind, rules: seq<Rule>, record: Record, root: Key) returns (own: set<RuleKey>)
    requires uf.Valid() && record.key in uf.clusters
    modifies uf`parent
    ensures uf.Valid()
    ensures own == Own(rules, record, uf.clusters, root)
  {
    var found := uf.Find(record.key);
    own := {};
    if found == root {
      own := TrustedKeysByRule(rules, record);
    }
  }

  ghost predicate AllWithin(records: seq<Record>, keys: set<Key>) {
    forall i {:trigger records[i]} :: 0 <= i < |records| ==> records[i].key in keys
  }

  lemma GatherNext(rules: seq<Rule>, records: seq<Record>, p: Partition, root: Key, values: set<RuleKey>, own: set<RuleKey>, n: nat)
    requires n < |records| && own == Own(rules, records[n], p, root)
    requires values == UnionUpTo(Owned(rules, records, p, root), n)
    ensures values + own == UnionUpTo(Owned(rules, records, p, root), n + 1)
  {
  }

  /** The loop over all records that picks out the members of a cluster; the finds
      compress paths on the way. */
  method GatherValues(uf: UnionFind, rules: seq<Rule>, records: seq<Record>, root: Key) returns (values: set<RuleKey>)
    requires uf.Valid() && AllWithin(records, uf.clusters.Keys)
    modifies uf`parent
    ensures uf.Valid() && values == UnionUpTo(Owned(rules, records, uf.clusters, root), |records|)
  {
    ghost var p := uf.clusters;
    values := {};
    for n := 0 to |records|
      invariant uf.Valid() && uf.clusters == p && values == UnionUpTo(Owned(rules, records, p, root), n)
    {
      assert records[n].key in p;
      var own := Contribution(uf, rules, records[n], root);
      GatherNext(rules, records, p, root, values, own, n);
      values := values + own;
    }
  }

  /** The trusted keys of the cluster of `root`. */
  method ClusterValues(uf: UnionFind, rules: seq<Rule>, records: seq<Record>, root: Key) returns (values: set<RuleKey>)
    requires uf.Valid() && uf.clusters.Keys == KeySet(records) && UniqueKeys(records)
    modifies uf`parent
    ensures uf.Valid()
    ensures forall v :: v in values <==> Present(TrustedKeys(rules, records), uf.clusters, root, v)
  {
    assert AllWithin(records, KeySet(records));
    values := GatherValues(uf, rules, records, root);
    ValuesArePresent(rules, records, uf.clusters, root);
  }

  lemma BlockedByValues(vals: Trusted, p: Partition, a: Key, b: Key, left: set<RuleKey>, right: set<RuleKey>)
    requires a in p && b in p
    requires forall v :: v in left <==> Present(vals, p, p[a], v)
    requires forall v :: v in right <==> Present(vals, p, p[b], v)
    ensures (left != {} && right != {} && left !! right) <==> Blocked(vals, p, a, b)
  {
    if Carries(vals, p, a) {
      var k, v :| Holds(vals, p, p[a], k, v);
      assert v in left;
    }
    if Carries(vals, p, b) {
      var k, v :| Holds(vals, p, p[b], k, v);
      assert v in right;
    }
    if Shares(vals, p, a, b) {
      var j, k, v :| Holds(vals, p, p[a], j, v) && Holds(vals, p, p[b], k, v);
      assert v in left && v in right;
    }
    if v :| v in left && v in right {
      var j :| Holds(vals, p, p[a], j, v);
      var k :| Holds(vals, p, p[b], k, v);
    }
  }

  /** One candidate link of a composite rule. */
  method Consider(uf: UnionFind, rules: seq<Rule>, records: seq<Record>, link: Link, links: seq<Link>, conflicts: seq<Link>)
    returns (links': seq<Link>, conflicts': seq<Link>)
    requires uf.Valid() && uf.clusters.Keys == KeySet(records) && UniqueKeys(records)
    requires Joins(uf.clusters, link)
    modifies uf
    ensures uf.Valid()
    ensures Outcome(uf.clusters, links', conflicts') ==
            Step(TrustedKeys(rules, records), Outcome(old(uf.clusters), links, conflicts), link)
  {
    links', conflicts' := links, conflicts;
    var leftRoot := uf.Find(link.left);
    var rightRoot := uf.Find(link.right);
    if leftRoot == rightRoot {
      return;
    }
    var left := ClusterValues(uf, rules, records, leftRoot);
    var right := ClusterValues(uf, rules, records, rightRoot);
    BlockedByValues(TrustedKeys(rules, records), uf.clusters, link.left, link.right, left, right);
    if left != {} && right != {} && left !! right {
      conflicts' := conflicts + [link];
      return;
    }
    var _ := uf.Union(link.left, link.right);
    links' := links + [link];
  }

  /** The composite loop has reached the state of a run over `seen`. */
  ghost predicate Reached(vals: Trusted, t: Partition, seen: seq<Link>, o: Outcome) {
    AllJoin(t, seen) && o == Run(vals, Start(t), seen)
  }

  /** All pairs of one sorted group. */
  method ConsiderGroup(uf: UnionFind, rules: seq<Rule>, records: seq<Record>, ghost t: Partition, ghost seen: seq<Link>,
                       members: seq<Key>, id: string, links: seq<Link>, conflicts: seq<Link>)
    returns (links': seq<Link>, conflicts': seq<Link>)
    requires uf.Valid() && UniqueKeys(records) && t.Keys == KeySet(records)
    requires Reached(TrustedKeys(rules, records), t, seen, Outcome(uf.clusters, links, conflicts))
    requires AllBetween(KeySet(records), Labelled(Combinations(members), id))
    modifies uf
    ensures uf.Valid()
    ensures Reached(TrustedKeys(rules, records), t, seen + Labelled(Combinations(members), id),
                    Outcome(uf.clusters, links', conflicts'))
  {
    ghost var vals := TrustedKeys(rules, records);
    links', conflicts' := links, conflicts;
    var pairs := Combinations(members);
    ghost var block, now := Labelled(pairs, id), seen;
    for j := 0 to |pairs|
      invariant uf.Valid() && now == seen + block[..j]
      invariant Reached(vals, t, now, Outcome(uf.clusters, links', conflicts'))
    {
      var link := Link(pairs[j].0, pairs[j].1, id);
      assert link == block[j] && Between(KeySet(records), block[j]);
      RunAppend(vals, t, now, link);
      links', conflicts' := Consider(uf, rules, records, link, links', conflicts');
      TakeNext(seen, block, j);
      now := now + [link];
    }
    assert block[..|pairs|] == block;
  }

  method ConsiderRule(uf: UnionFind, rules: seq<Rule>, records: seq<Record>, ghost t: Partition, ghost seen: seq<Link>,
                      rule: Rule, links: seq<Link>, conflicts: seq<Link>)
    returns (links': seq<Link>, conflicts': seq<Link>)
    requires uf.Valid() && UniqueKeys(records) && t.Keys == KeySet(records) && !rule.trusted
    requires Reached(TrustedKeys(rules, records), t, seen, Outcome(uf.clusters, links, conflicts))
    modifies uf
    ensures uf.Valid()
    ensures Reached(TrustedKeys(rules, records), t, seen + LinksOfRule(rule, records),
                    Outcome(uf.clusters, links', conflicts'))
  {
    links', conflicts' := links, conflicts;
    ghost var blocks, now := GroupBlocks(rule, records), seen;
    var groups := SortedGroups(rule, records);
    for i := 0 to |groups|
      invariant uf.Valid() && now == seen + Flat(blocks[..i])
      invariant Reached(TrustedKeys(rules, records), t, now, Outcome(uf.clusters, links', conflicts'))
    {
      BlockBetween(rule, records, i);
      assert blocks[i] == Labelled(Combinations(groups[i]), rule.id);
      links', conflicts' := ConsiderGroup(uf, rules, records, t, now, groups[i], rule.id, links', conflicts');
      FlatNext(blocks, i);
      now := now + blocks[i];
    }
    assert blocks[..|groups|] == blocks;
  }

  /** The composite phase, rule by rule in priority order. */
  method CompositePhase(uf: UnionFind, rules: seq<Rule>, composite: seq<Rule>, records: seq<Record>)
    returns (links: seq<Link>, conflicts: seq<Link>)
    requires uf.Valid() && UniqueKeys(records) && uf.clusters.Keys == KeySet(records)
    requires forall r :: r in composite ==> !r.trusted
    modifies uf
    ensures uf.Valid()
    ensures Reached(TrustedKeys(rules, records), old(uf.clusters), LinksOfRules(composite, records),
                    Outcome(uf.clusters, links, conflicts))
  {
    links, conflicts := [], [];
    ghost var t, blocks, now: seq<Link> := uf.clusters, RuleBlocks(composite, records), [];
    for i := 0 to |composite|
      invariant uf.Valid() && now == Flat(blocks[..i])
      invariant Reached(TrustedKeys(rules, records), t, now, Outcome(uf.clusters, links, conflicts))
    {
      links, conflicts := ConsiderRule(uf, rules, records, t, now, composite[i], links, conflicts);
      FlatNext(blocks, i);
      now := now + blocks[i];
    }
    assert blocks[..|composite|] == blocks;
  }

  /** The members of the cluster of every record, gathered through the forest. */
  method CollectClusters(uf: UnionFind, records: seq<Record>) returns (clusters: map<Key, set<Key>>)
    requires uf.Valid() && uf.clusters.Keys == KeySet(records)
    modifies uf`parent
    ensures uf.Valid()
    ensures clusters.Keys == KeySet(records)
    ensures forall k :: k in clusters ==> clusters[k] == Cluster(uf.clusters, uf.clusters[k])
  {
    var roots: map<Key, Key> := map[];
    for n := 0 to |records|
      invariant uf.Valid() && roots.Keys == KeySet(records[..n])
      invariant forall k :: k in roots ==> k in uf.clusters && roots[k] == uf.clusters[k]
    {
      assert records[..n + 1] == records[..n] + [records[n]] && records[n] in records;
      var root := uf.Find(records[n].key);
      roots := roots[records[n].key := root];
    }
    assert records[..|records|] == records;
    clusters := map k | k in roots :: set j | j in roots && roots[j] == roots[k];
  }

  method MatchRecords(records: seq<Record>, rules: seq<Rule>) returns (result: Result)
    ensures result.Matched? <==> Admissible(records)
    ensures result == Failed(CrossOrganization) ==> SoundBefore(records, |records|)
    ensures result.Failed? && result.error != CrossOrganization ==> exists n :: FirstDefect(records, n, Some(result.error))
    ensures result.Matched? ==>
      var o := Match(rules, records);
      && result.links == LinksOfRules(TrustedRules(rules), records) + o.links
      && result.conflicts == o.conflicts
      && result.clusters.Keys == KeySet(records)
      && forall k :: k in result.clusters ==> result.clusters[k] == Cluster(o.p, o.p[k])
  {
    var error := Admit(records);
    if error.Some? {
      return Failed(error.value);
    }
    var trusted, composite := TrustedRules(rules), CompositeRules(rules);
    TrustedOnly(rules);
    forall r | r in composite ensures !r.trusted {
      InCompositeRules(rules, r);
    }
    var uf := new UnionFind(set r | r in records :: r.key);
    var trustedLinks := TrustedPhase(uf, trusted, records);
    var links, conflicts := CompositePhase(uf, trusted, composite, records);
    assert Outcome(uf.clusters, links, conflicts) == Match(rules, records);
    var clusters := CollectClusters(uf, records);
    return Matched(clusters, trustedLinks + links, conflicts);
  }
}
