/** Records, matching rules and the key a rule gives to a record. */
module Records {
  import opened Keys
  import opened Collections

  /** A record with its trimmed record key and organization. `values` holds the
      normalized value of every field that is present. */
  datatype Record = Record(key: Key, organization: string, values: map<string, string>)

  datatype Rule = Rule(id: string, priority: int, fields: seq<string>, trusted: bool, requireAll: bool)

  /** The tuple of normalized field values that a rule compares. */
  type RuleKey = seq<string>

  function Value(r: Record, field: string): string {
    if field in r.values then r.values[field] else ""
  }

  function Values(r: Record, fields: seq<string>): (v: RuleKey)
    ensures |v| == |fields| && forall i :: 0 <= i < |v| ==> v[i] == Value(r, fields[i])
  {
    seq(|fields|, i requires 0 <= i < |fields| => Value(r, fields[i]))
  }

  /** No key when every value is blank, or when one is and the rule needs them all. */
  function KeyUnder(rule: Rule, r: Record): (key: Option<RuleKey>)
    ensures key.Some? ==> key.value == Values(r, rule.fields)
    ensures key.Some? <==> (exists i :: 0 <= i < |rule.fields| && Value(r, rule.fields[i]) != "") &&
                           (rule.requireAll ==> forall i :: 0 <= i < |rule.fields| ==> Value(r, rule.fields[i]) != "")
  {
    var v := Values(r, rule.fields);
    assert forall i :: 0 <= i < |v| ==> v[i] == Value(r, rule.fields[i]);
    if rule.requireAll && (exists i :: 0 <= i < |v| && v[i] == "") then None
    else if forall i :: 0 <= i < |v| ==> v[i] == "" then None
    else Some(v)
  }

  function TagsUnder(rule: Rule, records: seq<Record>): seq<Option<RuleKey>> {
    seq(|records|, i requires 0 <= i < |records| => KeyUnder(rule, records[i]))
  }

  function KeysOf(records: seq<Record>): seq<Key> {
    seq(|records|, i requires 0 <= i < |records| => records[i].key)
  }

  ghost predicate UniqueKeys(records: seq<Record>) {
    forall i, j :: 0 <= i < j < |records| ==> records[i].key != records[j].key
  }

  /** Two records of the batch have the same key under the rule. */
  ghost predicate Agree(rule: Rule, records: seq<Record>, a: Key, b: Key) {
    exists i, j :: AgreeAt(rule, records, i, j) && records[i].key == a && records[j].key == b
  }

  ghost predicate AgreeAt(rule: Rule, records: seq<Record>, i: int, j: int) {
    && 0 <= i < |records| && 0 <= j < |records|
    && KeyUnder(rule, records[i]).Some? && KeyUnder(rule, records[i]) == KeyUnder(rule, records[j])
  }

  lemma AtMostTotalPreorder()
    ensures TotalPreorder(AtMost)
  {
    forall a, b ensures AtMost(a, b) || AtMost(b, a) {
      PrecedesTotal(a, b);
    }
    forall a, b, c | AtMost(a, b) && AtMost(b, c) ensures AtMost(a, c) {
      if Precedes(a, b) && Precedes(b, c) {
        PrecedesTransitive(a, b, c);
      }
    }
  }

  /** The sorted record keys of the group with rule key `v`. */
  function GroupMembers(rule: Rule, records: seq<Record>, v: RuleKey): seq<Key> {
    Sort(Members(KeysOf(records), TagsUnder(rule, records), v), AtMost)
  }

  ghost predicate InGroup(rule: Rule, records: seq<Record>, v: RuleKey, k: Key) {
    exists i :: 0 <= i < |records| && KeyUnder(rule, records[i]) == Some(v) && records[i].key == k
  }

  lemma GroupMembersExactly(rule: Rule, records: seq<Record>, v: RuleKey)
    ensures forall k :: k in GroupMembers(rule, records, v) <==> InGroup(rule, records, v, k)
  {
    var keys, tags := KeysOf(records), TagsUnder(rule, records);
    MembersExactly(keys, tags, v);
    SameMembers(GroupMembers(rule, records, v), Members(keys, tags, v));
    forall k ensures k in Members(keys, tags, v) <==> InGroup(rule, records, v, k) {
      if InGroup(rule, records, v, k) {
        var i :| 0 <= i < |records| && KeyUnder(rule, records[i]) == Some(v) && records[i].key == k;
        assert tags[i] == Some(v) && keys[i] == k;
      }
    }
  }

  /** With unique record keys the members come out strictly ascending. */
  lemma GroupMembersAscending(rule: Rule, records: seq<Record>, v: RuleKey)
    requires UniqueKeys(records)
    ensures var s := GroupMembers(rule, records, v);
            forall i, j :: 0 <= i < j < |s| ==> Precedes(s[i], s[j])
  {
    var keys, tags := KeysOf(records), TagsUnder(rule, records);
    assert Distinct(keys);
    MembersDistinct(keys, tags, v);
    SortKeepsDistinct(Members(keys, tags, v), AtMost);
    AtMostTotalPreorder();
    SortSorted(Members(keys, tags, v), AtMost);
  }

  /** The rule keys of the batch, in order of first appearance. */
  function GroupOrder(rule: Rule, records: seq<Record>): seq<RuleKey> {
    Seen(TagsUnder(rule, records))
  }

  lemma GroupOrderExactly(rule: Rule, records: seq<Record>)
    ensures forall v :: v in GroupOrder(rule, records) <==>
                        exists i :: 0 <= i < |records| && KeyUnder(rule, records[i]) == Some(v)
  {
    var tags := TagsUnder(rule, records);
    SeenExactly(tags);
    forall v ensures Some(v) in tags <==> exists i :: 0 <= i < |records| && KeyUnder(rule, records[i]) == Some(v) {
      if i :| 0 <= i < |records| && KeyUnder(rule, records[i]) == Some(v) {
        assert tags[i] == Some(v);
      }
    }
  }

  /** The sorted members of every group of a rule, groups in order of first appearance. */
  method SortedGroups(rule: Rule, records: seq<Record>) returns (groups: seq<seq<Key>>)
    ensures |groups| == |GroupOrder(rule, records)|
    ensures forall i :: 0 <= i < |groups| ==> groups[i] == GroupMembers(rule, records, GroupOrder(rule, records)[i])
  {
    var order, members := Group(KeysOf(records), TagsUnder(rule, records));
    assert forall i :: 0 <= i < |order| ==> order[i] in members;
    groups := seq(|order|, i requires 0 <= i < |order| && order[i] in members => Sort(members[order[i]], AtMost));
  }
}
