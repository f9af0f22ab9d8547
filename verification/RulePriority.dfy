/** Rules act in order of priority: smaller numbers first, equal numbers as configured. A pair
    of records is linked under the first composite rule that may link it. */
module RulePriority {
  import opened Keys
  import opened Collections
  import opened Partitions
  import opened Records
  import opened Composite
  import opened Deterministic

  ghost predicate AscendingPriority(rules: seq<Rule>) {
    forall i, j :: 0 <= i < j < |rules| ==> rules[i].priority <= rules[j].priority
  }

  lemma SortedByPriority(rules: seq<Rule>)
    ensures AscendingPriority(Sort(rules, ByPriority))
  {
    SortSorted(rules, ByPriority);
    var sorted := Sort(rules, ByPriority);
    forall i, j | 0 <= i < j < |sorted| ensures sorted[i].priority <= sorted[j].priority {
      assert ByPriority(sorted[i], sorted[j]);
    }
  }

  /** Both phases take their rules in ascending priority. */
  lemma RulesAscend(rules: seq<Rule>)
    ensures AscendingPriority(TrustedRules(rules)) && AscendingPriority(CompositeRules(rules))
  {
    SortedByPriority(Where(rules, (r: Rule) => r.trusted));
    SortedByPriority(Where(rules, (r: Rule) => !r.trusted));
  }

  /** Among rules of one priority the configured order stands. */
  lemma EqualPrioritiesKeepOrder(rules: seq<Rule>, priority: int)
    ensures Where(TrustedRules(rules), (r: Rule) => r.priority == priority) ==
            Where(Where(rules, (r: Rule) => r.trusted), (r: Rule) => r.priority == priority)
    ensures Where(CompositeRules(rules), (r: Rule) => r.priority == priority) ==
            Where(Where(rules, (r: Rule) => !r.trusted), (r: Rule) => r.priority == priority)
  {
    SortStable(Where(rules, (r: Rule) => r.trusted), ByPriority, (r: Rule) => r.priority == priority);
    SortStable(Where(rules, (r: Rule) => !r.trusted), ByPriority, (r: Rule) => r.priority == priority);
  }

  // ----- Which rule a link is reported under -----

  /** A reported link was considered while its records were still apart. */
  lemma {:induction false} LinkOrigin(vals: Trusted, t: Partition, links: seq<Link>, n: nat, link: Link) returns (m: nat)
    requires n <= |links| && AllJoin(t, links) && link in After(vals, Start(t), links, n).links
    ensures m < n && links[m] == link && Joins(t, link)
    ensures var p := After(vals, Start(t), links, m).p; p[link.left] != p[link.right]
  {
    AfterNext(vals, t, links, n - 1);
    if link in After(vals, Start(t), links, n - 1).links {
      m := LinkOrigin(vals, t, links, n - 1, link);
    } else {
      m := n - 1;
    }
  }

  /** Every link before a reported one that joins the same records is a recorded conflict. */
  lemma EarlierLinksConflicted(vals: Trusted, t: Partition, links: seq<Link>, link: Link, m: nat, k: nat)
    requires AllJoin(t, links) && Valid(t) && k < m < |links| && links[m] == link
    requires Joins(t, link) && links[k].left == link.left && links[k].right == link.right
    requires var p := After(vals, Start(t), links, m).p; p[link.left] != p[link.right]
    ensures links[k] in Run(vals, Start(t), links).conflicts
  {
    EveryLinkSettled(vals, t, links, m, k);
    ConflictsStay(vals, t, links, m, |links|, links[k]);
  }

  /** The block that place `n` of a concatenation lies in; the blocks before it end by then. */
  lemma {:induction false} BlockAt<T>(blocks: seq<seq<T>>, n: nat) returns (b: nat)
    requires n < |Flat(blocks)|
    ensures b < |blocks| && Flat(blocks)[n] in blocks[b] && |Flat(blocks[..b])| <= n
  {
    var last := |blocks| - 1;
    var front := Flat(blocks[..last]);
    if n < |front| {
      b := BlockAt(blocks[..last], n);
      assert blocks[..last][..b] == blocks[..b];
    } else {
      b := last;
      assert Flat(blocks)[n] == blocks[last][n - |front|];
    }
  }

  lemma {:induction false} FlatPrefix<T>(blocks: seq<seq<T>>, b: nat)
    requires b <= |blocks|
    ensures Flat(blocks[..b]) <= Flat(blocks)
    decreases |blocks|
  {
    if b == |blocks| {
      assert blocks[..b] == blocks;
    } else {
      var last := |blocks| - 1;
      FlatPrefix(blocks[..last], b);
      assert blocks[..last][..b] == blocks[..b];
    }
  }

  /** An element of an earlier block has a place before. */
  lemma EarlierPlace<T>(blocks: seq<seq<T>>, a: nat, b: nat, x: T) returns (k: nat)
    requires a < b <= |blocks| && x in blocks[a]
    ensures k < |Flat(blocks[..b])| && k < |Flat(blocks)| && Flat(blocks)[k] == x
  {
    InFlat(blocks[..b], x);
    assert blocks[..b][a] == blocks[a];
    k :| 0 <= k < |Flat(blocks[..b])| && Flat(blocks[..b])[k] == x;
    FlatPrefix(blocks, b);
  }

  /** The rule that a link is reported under: the records agree on it, and every composite rule
      of smaller priority on which they agree has recorded their conflict. */
  ghost predicate FirstRuleFor(rules: seq<Rule>, records: seq<Record>, link: Link, rule: Rule) {
    && rule in rules && !rule.trusted && rule.id == link.rule && Agree(rule, records, link.left, link.right)
    && forall other :: other in rules && !other.trusted && other.priority < rule.priority && Agree(other, records, link.left, link.right)
         ==> Link(link.left, link.right, other.id) in Match(rules, records).conflicts
  }

  lemma PlaceOfRule(rules: seq<Rule>, composite: seq<Rule>, b: nat, other: Rule) returns (p: nat)
    requires composite == CompositeRules(rules) && other in rules && !other.trusted
    requires b < |composite| && other.priority < composite[b].priority
    ensures p < b && composite[p] == other
  {
    InCompositeRules(rules, other);
    p :| 0 <= p < |composite| && composite[p] == other;
    RulesAscend(rules);
  }

  lemma ProposedInBlock(composite: seq<Rule>, records: seq<Record>, a: Key, c: Key, p: nat)
    requires p < |composite| && UniqueKeys(records) && !composite[p].trusted
    requires Agree(composite[p], records, a, c) && Precedes(a, c)
    ensures Link(a, c, composite[p].id) in RuleBlocks(composite, records)[p]
  {
    AgreeingPairProposed(composite[p], records, a, c);
    InLinksOfRule(composite[p], records, Link(a, c, composite[p].id));
  }

  /** A rule of smaller priority proposes its link for the pair before block `b` begins. */
  lemma EarlierProposal(rules: seq<Rule>, composite: seq<Rule>, records: seq<Record>, a: Key, c: Key, b: nat, other: Rule) returns (k: nat)
    requires composite == CompositeRules(rules) && UniqueKeys(records) && other in rules && !other.trusted
    requires b < |composite| && other.priority < composite[b].priority && Agree(other, records, a, c) && Precedes(a, c)
    ensures k < |Flat(RuleBlocks(composite, records)[..b])|
    ensures k < |LinksOfRules(composite, records)| && LinksOfRules(composite, records)[k] == Link(a, c, other.id)
  {
    var p := PlaceOfRule(rules, composite, b, other);
    ProposedInBlock(composite, records, a, c, p);
    k := EarlierPlace(RuleBlocks(composite, records), p, b, Link(a, c, other.id));
  }

  lemma LinkedUnderFirstRuleIn(rules: seq<Rule>, records: seq<Record>, vals: Trusted, t: Partition, links: seq<Link>, link: Link)
    returns (rule: Rule)
    requires UniqueKeys(records) && Valid(t) && AllJoin(t, links) && links == LinksOfRules(CompositeRules(rules), records)
    requires link in Run(vals, Start(t), links).links
    ensures rule in rules && !rule.trusted && rule.id == link.rule && Agree(rule, records, link.left, link.right)
    ensures forall other :: other in rules && !other.trusted && other.priority < rule.priority && Agree(other, records, link.left, link.right)
              ==> Link(link.left, link.right, other.id) in Run(vals, Start(t), links).conflicts
  {
    var composite := CompositeRules(rules);
    var m := LinkOrigin(vals, t, links, |links|, link);
    var b := BlockAt(RuleBlocks(composite, records), m);
    rule := composite[b];
    InCompositeRules(rules, rule);
    InLinksOfRule(rule, records, link);
    LinkAgrees(rule, records, link);
    ProposedAscending(rule, records, link);
    forall other | other in rules && !other.trusted && other.priority < rule.priority && Agree(other, records, link.left, link.right)
      ensures Link(link.left, link.right, other.id) in Run(vals, Start(t), links).conflicts
    {
      var k := EarlierProposal(rules, composite, records, link.left, link.right, b, other);
      EarlierLinksConflicted(vals, t, links, link, m, k);
    }
  }

  /** Every composite link is reported under the first rule that may link its records. */
  lemma LinkedUnderFirstRule(rules: seq<Rule>, records: seq<Record>, link: Link) returns (rule: Rule)
    requires UniqueKeys(records) && link in Match(rules, records).links
    ensures FirstRuleFor(rules, records, link, rule)
  {
    var trusted := TrustedRules(rules);
    TrustedOnly(rules);
    TrustedPhaseExact(trusted, records);
    rule := LinkedUnderFirstRuleIn(rules, records, TrustedKeys(trusted, records), TrustedPartition(trusted, records),
                                   CompositeLinks(rules, records), link);
  }
}
