/** The validation engine: grouped checks against their pairwise meaning, and the
    bookkeeping of issues, summaries, quality dimensions and blocking failures. */
module Validation {
  import opened Collections
  import opened Values

  datatype Category = Structural | Completeness | Validity | Uniqueness | Consistency | Timeliness

  /** Rule types that look at one record at a time; they differ only in their test. */
  datatype RecordCheck = Schema | Required | AllowedValues | Range | Pattern | Temporal | Recency

  datatype Check =
    | Unique
    | Reference(allowed: set<string>)
    | CrossSource(keys: seq<string>, compares: seq<string>)
    | PerRecord(kind: RecordCheck)

  datatype Rule = Rule(id: string, blocking: bool, fields: seq<string>, check: Check)

  function Tuple(r: Record, fields: seq<string>): seq<Value> {
    seq(|fields|, i requires 0 <= i < |fields| => Get(r, fields[i]))
  }

  predicate AllBlank(key: seq<Value>) {
    forall i :: 0 <= i < |key| ==> Blank(key[i])
  }

  // ----- What each check means -----

  /** Neither null nor the empty text. */
  ghost predicate Given(records: seq<Record>, i: int, field: string)
    requires 0 <= i < |records|
  {
    field in records[i] && records[i][field] != Null && records[i][field] != Text("")
  }

  /** Another record has the same tuple, and some value in it is given. */
  ghost predicate Repeated(records: seq<Record>, fields: seq<string>, i: int) {
    && 0 <= i < |records| && (exists k :: 0 <= k < |fields| && Given(records, i, fields[k]))
    && exists j :: 0 <= j < |records| && j != i && Tuple(records[j], fields) == Tuple(records[i], fields)
  }

  predicate Unlisted(r: Record, fields: seq<string>, allowed: set<string>) {
    exists k :: 0 <= k < |fields| && !Blank(Get(r, fields[k])) && Get(r, fields[k]).text !in allowed
  }


  /** Two records with the tuple of record `i` hold different values in a compared field. */
  ghost predicate Contradicted(records: seq<Record>, keys: seq<string>, compares: seq<string>, i: int) {
    0 <= i < |records| && ClashIn(records, keys, compares, Tuple(records[i], keys))
  }

  ghost predicate ClashIn(records: seq<Record>, keys: seq<string>, compares: seq<string>, key: seq<Value>) {
    exists c: nat :: c < |compares| && FieldClash(records, keys, key, compares[c])
  }

  ghost predicate FieldClash(records: seq<Record>, keys: seq<string>, key: seq<Value>, field: string) {
    exists j, k :: 0 <= j < |records| && 0 <= k < |records| && Tuple(records[j], keys) == key
                   && Tuple(records[k], keys) == key && Clash(records, j, k, field)
  }

  /** Both records give the field, and differently. */
  ghost predicate Clash(records: seq<Record>, j: int, k: int, field: string)
    requires 0 <= j < |records| && 0 <= k < |records|
  {
    Given(records, j, field) && Given(records, k, field) && records[j][field] != records[k][field]
  }

  /** The record gives a value that the reference set does not list. */
  ghost predicate OffList(records: seq<Record>, i: int, fields: seq<string>, allowed: set<string>) {
    0 <= i < |records| && exists k :: 0 <= k < |fields| && Given(records, i, fields[k]) && records[i][fields[k]].text !in allowed
  }

  ghost predicate Fails(rule: Rule, records: seq<Record>, passes: (Rule, Record) -> bool, i: int) {
    match rule.check
    case Unique => Repeated(records, rule.fields, i)
    case Reference(allowed) => OffList(records, i, rule.fields, allowed)
    case CrossSource(keys, compares) => Contradicted(records, keys, compares, i)
    case PerRecord(_) => 0 <= i < |records| && !passes(rule, records[i])
  }

  // ----- Grouped checks -----

  function Indices(n: nat): seq<nat> {
    seq(n, i requires 0 <= i < n => i)
  }

  function Tags(records: seq<Record>, fields: seq<string>): (tags: seq<Option<seq<Value>>>) {
    seq(|records|, i requires 0 <= i < |records| => Some(Tuple(records[i], fields)))
  }

  /** The indices with tuple `key`, as the grouping loop collects them. */
  ghost predicate IsGroup(records: seq<Record>, fields: seq<string>, key: seq<Value>, group: seq<nat>) {
    && Distinct(group)
    && forall i: nat :: i in group <==> i < |records| && Tuple(records[i], fields) == key
  }

  method GroupBy(records: seq<Record>, fields: seq<string>) returns (order: seq<seq<Value>>, groups: map<seq<Value>, seq<nat>>)
    ensures forall key :: key in groups <==> key in order
    ensures forall i :: 0 <= i < |records| ==> Tuple(records[i], fields) in order
    ensures forall key :: key in groups ==> IsGroup(records, fields, key, groups[key])
  {
    var tags := Tags(records, fields);
    order, groups := Group(Indices(|records|), tags);
    SeenExactly(tags);
    forall i | 0 <= i < |records| ensures Tuple(records[i], fields) in order {
      assert tags[i] in tags;
    }
    forall key | key in groups ensures IsGroup(records, fields, key, groups[key]) {
      GroupIsExact(records, fields, key);
    }
  }

  lemma GroupIsExact(records: seq<Record>, fields: seq<string>, key: seq<Value>)
    ensures IsGroup(records, fields, key, Members(Indices(|records|), Tags(records, fields), key))
  {
    var indices, tags := Indices(|records|), Tags(records, fields);
    MembersDistinct(indices, tags, key);
    MembersExactly(indices, tags, key);
    forall i: nat ensures i in Members(indices, tags, key) <==> i < |records| && Tuple(records[i], fields) == key {
      if i < |records| && Tuple(records[i], fields) == key {
        assert tags[i] == Some(key) && indices[i] == i;
      }
    }
  }

  lemma BlankTuple(records: seq<Record>, fields: seq<string>, i: nat)
    requires i < |records|
    ensures !AllBlank(Tuple(records[i], fields)) <==> exists k :: 0 <= k < |fields| && Given(records, i, fields[k])
  {
    var key := Tuple(records[i], fields);
    if k :| 0 <= k < |fields| && Given(records, i, fields[k]) {
      assert !Blank(key[k]);
    }
    if k :| 0 <= k < |key| && !Blank(key[k]) {
      assert Given(records, i, fields[k]);
    }
  }

  lemma LargeGroupRepeats(records: seq<Record>, fields: seq<string>, key: seq<Value>, group: seq<nat>, i: nat)
    requires IsGroup(records, fields, key, group) && i in group
    ensures Repeated(records, fields, i) <==> !AllBlank(key) && |group| > 1
  {
    BlankTuple(records, fields, i);
    if Repeated(records, fields, i) {
      var j :| 0 <= j < |records| && j != i && Tuple(records[j], fields) == Tuple(records[i], fields);
      assert j in group;
    }
    if |group| > 1 {
      var j := if group[0] == i then group[1] else group[0];
      assert j in group;
    }
  }

  function AsSet(group: seq<nat>): (s: set<nat>)
    ensures forall i :: i in s <==> i in group
  {
    set i | i in group
  }

  method UniqueFailures(records: seq<Record>, fields: seq<string>) returns (failed: set<nat>)
    ensures forall i :: i in failed <==> Repeated(records, fields, i)
  {
    var order, groups := GroupBy(records, fields);
    failed := {};
    for n := 0 to |order|
      invariant forall i :: i in failed <==> Repeated(records, fields, i) && Tuple(records[i], fields) in order[..n]
    {
      var key := order[n];
      var group := groups[key];
      assert IsGroup(records, fields, key, group);
      ghost var before := failed;
      if !AllBlank(key) && |group| > 1 {
        failed := failed + AsSet(group);
      }
      forall i: nat ensures i in failed <==> Repeated(records, fields, i) && Tuple(records[i], fields) in order[..n + 1] {
        if i in group {
          LargeGroupRepeats(records, fields, key, group, i);
          assert order[..n + 1][n] == key;
        }
        assert i < |records| && Tuple(records[i], fields) in order[..n + 1] && Tuple(records[i], fields) != key
               ==> Tuple(records[i], fields) in order[..n];
      }
    }
    assert order[..|order|] == order;
  }

  /** The non-blank values of a field over a group. */
  ghost predicate Observes(records: seq<Record>, group: seq<nat>, field: string, v: Value) {
    exists i: nat :: i in group && i < |records| && Get(records[i], field) == v && !Blank(v)
  }

  method Observed(records: seq<Record>, group: seq<nat>, field: string) returns (values: set<Value>)
    requires forall i: nat :: i in group ==> i < |records|
    ensures forall v :: v in values <==> Observes(records, group, field, v)
  {
    values := {};
    for n := 0 to |group|
      invariant forall v :: v in values <==> Observes(records, group[..n], field, v)
    {
      assert group[n] in group;
      var w := Get(records[group[n]], field);
      forall v ensures Observes(records, group[..n + 1], field, v) <==> Observes(records, group[..n], field, v) || (v == w && !Blank(w)) {
        assert group[..n + 1] == group[..n] + [group[n]];
        if Observes(records, group[..n], field, v) {
          var i: nat :| i in group[..n] && i < |records| && Get(records[i], field) == v && !Blank(v);
          assert i in group[..n + 1];
        }
        assert group[n] in group[..n + 1];
      }
      if !Blank(w) {
        values := values + {w};
      }
    }
    assert group[..|group|] == group;
  }

  lemma TwoValuesClash(records: seq<Record>, keys: seq<string>, key: seq<Value>, group: seq<nat>, field: string, v: Value, w: Value)
    requires IsGroup(records, keys, key, group) && v != w
    requires Observes(records, group, field, v) && Observes(records, group, field, w)
    ensures FieldClash(records, keys, key, field)
  {
    var j: nat :| j in group && j < |records| && Get(records[j], field) == v && !Blank(v);
    var k: nat :| k in group && k < |records| && Get(records[k], field) == w && !Blank(w);
    assert Given(records, j, field) && Given(records, k, field);
    assert Clash(records, j, k, field);
  }

  lemma ClashShowsTwo(records: seq<Record>, keys: seq<string>, key: seq<Value>, group: seq<nat>, field: string) returns (v: Value, w: Value)
    requires IsGroup(records, keys, key, group) && FieldClash(records, keys, key, field)
    ensures v != w && Observes(records, group, field, v) && Observes(records, group, field, w)
  {
    var j, k :| 0 <= j < |records| && 0 <= k < |records| && Tuple(records[j], keys) == key
                && Tuple(records[k], keys) == key && Clash(records, j, k, field);
    v, w := records[j][field], records[k][field];
    assert j in group && k in group;
  }

  lemma ManyObservedClash(records: seq<Record>, keys: seq<string>, key: seq<Value>, group: seq<nat>, field: string, values: set<Value>)
    requires IsGroup(records, keys, key, group)
    requires forall v :: v in values <==> Observes(records, group, field, v)
    ensures |values| > 1 <==> FieldClash(records, keys, key, field)
  {
    if |values| > 1 {
      var v :| v in values;
      assert |values - {v}| >= 1;
      var w :| w in values - {v};
      TwoValuesClash(records, keys, key, group, field, v, w);
    }
    if FieldClash(records, keys, key, field) {
      var v, w := ClashShowsTwo(records, keys, key, group, field);
      assert |values - {v}| == |values| - 1 && w in values - {v};
    }
  }

  /** The whole group fails as soon as one compared field holds two values. */
  method GroupClashes(records: seq<Record>, keys: seq<string>, compares: seq<string>, ghost key: seq<Value>, group: seq<nat>)
    returns (clash: bool)
    requires IsGroup(records, keys, key, group)
    ensures clash <==> ClashIn(records, keys, compares, key)
  {
    clash := false;
    for c := 0 to |compares|
      invariant clash <==> exists d: nat :: d < c && FieldClash(records, keys, key, compares[d])
    {
      var values := Observed(records, group, compares[c]);
      ManyObservedClash(records, keys, key, group, compares[c], values);
      if |values| > 1 {
        clash := true;
      }
    }
  }

  method CrossSourceFailures(records: seq<Record>, keys: seq<string>, compares: seq<string>) returns (failed: set<nat>)
    ensures forall i :: i in failed <==> Contradicted(records, keys, compares, i)
  {
    var order, groups := GroupBy(records, keys);
    failed := {};
    for n := 0 to |order|
      invariant forall i :: i in failed <==> Contradicted(records, keys, compares, i) && Tuple(records[i], keys) in order[..n]
    {
      var key := order[n];
      var group := groups[key];
      assert IsGroup(records, keys, key, group);
      var clash := GroupClashes(records, keys, compares, key, group);
      if clash {
        failed := failed + AsSet(group);
      }
      forall i: nat ensures i in failed <==> Contradicted(records, keys, compares, i) && Tuple(records[i], keys) in order[..n + 1] {
        assert order[..n + 1] == order[..n] + [key];
        assert i in group <==> i < |records| && Tuple(records[i], keys) == key;
      }
    }
    assert order[..|order|] == order;
  }

  lemma UnlistedIsOffList(records: seq<Record>, i: nat, fields: seq<string>, allowed: set<string>)
    requires i < |records|
    ensures Unlisted(records[i], fields, allowed) <==> OffList(records, i, fields, allowed)
  {
    if Unlisted(records[i], fields, allowed) {
      var k :| 0 <= k < |fields| && !Blank(Get(records[i], fields[k])) && Get(records[i], fields[k]).text !in allowed;
      assert Given(records, i, fields[k]);
    }
    if OffList(records, i, fields, allowed) {
      var k :| 0 <= k < |fields| && Given(records, i, fields[k]) && records[i][fields[k]].text !in allowed;
      assert !Blank(Get(records[i], fields[k]));
    }
  }

  /** The failed indices of one rule, whichever way they are computed. */
  method FailedIndices(rule: Rule, records: seq<Record>, passes: (Rule, Record) -> bool) returns (failed: set<nat>)
    ensures forall i :: i in failed <==> Fails(rule, records, passes, i)
  {
    match rule.check
    case Unique => failed := UniqueFailures(records, rule.fields);
    case CrossSource(keys, compares) => failed := CrossSourceFailures(records, keys, compares);
    case Reference(allowed) =>
      failed := {};
      for i := 0 to |records|
        invariant forall j :: j in failed <==> j < i && Fails(rule, records, passes, j)
      {
        UnlistedIsOffList(records, i, rule.fields, allowed);
        if Unlisted(records[i], rule.fields, allowed) {
          failed := failed + {i};
        }
      }
    case PerRecord(_) =>
      failed := set i: nat | i < |records| && !passes(rule, records[i]);
  }

  // ----- Issues, summaries and dimensions -----

  datatype Issue = Issue(ruleId: string, blocking: bool, record: nat)

  datatype Summary = Summary(ruleId: string, category: Category, evaluated: nat, failed: nat, passed: bool)

  datatype Totals = Totals(evaluated: nat, failed: nat)

  function CategoryOf(check: Check): Category {
    match check
    case Unique => Uniqueness
    case Reference(_) => Consistency
    case CrossSource(_, _) => Consistency
    case PerRecord(kind) =>
      match kind {
        case Schema => Structural
        case Required => Completeness
        case AllowedValues => Validity
        case Range => Validity
        case Pattern => Validity
        case Temporal => Consistency
        case Recency => Timeliness
      }
  }

  /** Which rule types make up each quality dimension. */
  lemma DimensionMembers(check: Check)
    ensures CategoryOf(check) == Structural <==> check == PerRecord(Schema)
    ensures CategoryOf(check) == Completeness <==> check == PerRecord(Required)
    ensures CategoryOf(check) == Validity <==> check in {PerRecord(AllowedValues), PerRecord(Range), PerRecord(Pattern)}
    ensures CategoryOf(check) == Uniqueness <==> check == Unique
    ensures CategoryOf(check) == Consistency <==> check.Reference? || check.CrossSource? || check == PerRecord(Temporal)
    ensures CategoryOf(check) == Timeliness <==> check == PerRecord(Recency)
  {
  }

  /** The issues of one rule: its failing records in ascending order. */
  ghost function IssuesUpTo(rule: Rule, records: seq<Record>, passes: (Rule, Record) -> bool, n: nat): seq<Issue> {
    if n == 0 then []
    else
      IssuesUpTo(rule, records, passes, n - 1) +
      if Fails(rule, records, passes, n - 1) then [Issue(rule.id, rule.blocking, n - 1)] else []
  }

  ghost function IssuesOf(rule: Rule, records: seq<Record>, passes: (Rule, Record) -> bool): seq<Issue> {
    IssuesUpTo(rule, records, passes, |records|)
  }

  /** The issues of all rules, in rule order. */
  ghost function AllIssues(rules: seq<Rule>, records: seq<Record>, passes: (Rule, Record) -> bool): seq<Issue> {
    if rules == [] then []
    else AllIssues(rules[..|rules| - 1], records, passes) + IssuesOf(rules[|rules| - 1], records, passes)
  }

  ghost predicate SummaryOf(s: Summary, rule: Rule, records: seq<Record>, passes: (Rule, Record) -> bool) {
    s == Summary(rule.id, CategoryOf(rule.check), |records|, |IssuesOf(rule, records, passes)|, IssuesOf(rule, records, passes) == [])
  }

  lemma {:induction false} IssuesBounded(rule: Rule, records: seq<Record>, passes: (Rule, Record) -> bool, n: nat)
    ensures |IssuesUpTo(rule, records, passes, n)| <= n
    ensures forall k :: 0 <= k < |IssuesUpTo(rule, records, passes, n)| ==>
              IssuesUpTo(rule, records, passes, n)[k].ruleId == rule.id && IssuesUpTo(rule, records, passes, n)[k].blocking == rule.blocking
  {
    if n == 0 {
    } else {
      IssuesBounded(rule, records, passes, n - 1);
    }
  }

  /** A record is reported under a rule exactly when it fails it. */
  lemma {:induction false} IssuesExactly(rule: Rule, records: seq<Record>, passes: (Rule, Record) -> bool, n: nat, i: nat)
    requires n <= |records|
    ensures Issue(rule.id, rule.blocking, i) in IssuesUpTo(rule, records, passes, n) <==> i < n && Fails(rule, records, passes, i)
  {
    if n == 0 {
    } else {
      IssuesExactly(rule, records, passes, n - 1, i);
    }
  }

  ghost predicate AscendingBelow(issues: seq<Issue>, n: nat) {
    && (forall k :: 0 <= k < |issues| ==> issues[k].record < n)
    && forall j, k :: 0 <= j < k < |issues| ==> issues[j].record < issues[k].record
  }

  lemma AscendingNext(front: seq<Issue>, issue: Issue, n: nat)
    requires AscendingBelow(front, n) && issue.record == n
    ensures AscendingBelow(front + [issue], n + 1) && AscendingBelow(front, n + 1)
  {
  }

  /** And records are reported in ascending order. */
  lemma {:induction false} IssuesAscending(rule: Rule, records: seq<Record>, passes: (Rule, Record) -> bool, n: nat)
    ensures AscendingBelow(IssuesUpTo(rule, records, passes, n), n)
  {
    if n == 0 {
    } else {
      IssuesAscending(rule, records, passes, n - 1);
      AscendingNext(IssuesUpTo(rule, records, passes, n - 1), Issue(rule.id, rule.blocking, n - 1), n - 1);
    }
  }

  /** The failed indices in ascending order, turned into issues. */
  method IssuesFor(rule: Rule, records: seq<Record>, passes: (Rule, Record) -> bool) returns (issues: seq<Issue>)
    ensures issues == IssuesOf(rule, records, passes)
  {
    var failed := FailedIndices(rule, records, passes);
    issues := [];
    for i := 0 to |records|
      invariant issues == IssuesUpTo(rule, records, passes, i)
    {
      if i in failed {
        issues := issues + [Issue(rule.id, rule.blocking, i)];
      }
    }
  }

  ghost function FailedIn(summaries: seq<Summary>, c: Category): nat {
    if summaries == [] then 0
    else
      var last := summaries[|summaries| - 1];
      FailedIn(summaries[..|summaries| - 1], c) + if last.category == c then last.failed else 0
  }

  ghost function EvaluatedIn(summaries: seq<Summary>, c: Category): nat {
    if summaries == [] then 0
    else
      var last := summaries[|summaries| - 1];
      EvaluatedIn(summaries[..|summaries| - 1], c) + if last.category == c then last.evaluated else 0
  }

  function TotalsAt(totals: map<Category, Totals>, c: Category): Totals {
    if c in totals then totals[c] else Totals(0, 0)
  }

  function FailedOverall(totals: map<Category, Totals>): nat {
    TotalsAt(totals, Structural).failed + TotalsAt(totals, Completeness).failed + TotalsAt(totals, Validity).failed +
    TotalsAt(totals, Uniqueness).failed + TotalsAt(totals, Consistency).failed + TotalsAt(totals, Timeliness).failed
  }

  ghost function TotalFailed(summaries: seq<Summary>): nat {
    if summaries == [] then 0
    else TotalFailed(summaries[..|summaries| - 1]) + summaries[|summaries| - 1].failed
  }

  /** Every summary belongs to one dimension. */
  lemma {:induction false} CategoriesAddUp(summaries: seq<Summary>)
    ensures FailedIn(summaries, Structural) + FailedIn(summaries, Completeness) + FailedIn(summaries, Validity) +
            FailedIn(summaries, Uniqueness) + FailedIn(summaries, Consistency) + FailedIn(summaries, Timeliness) == TotalFailed(summaries)
  {
    if summaries == [] {
    } else {
      CategoriesAddUp(summaries[..|summaries| - 1]);
    }
  }

  /** The dimension totals of some summaries. */
  ghost predicate TotalsOf(totals: map<Category, Totals>, summaries: seq<Summary>) {
    forall c :: TotalsAt(totals, c) == Totals(EvaluatedIn(summaries, c), FailedIn(summaries, c))
  }

  lemma TotalsNext(totals: map<Category, Totals>, summaries: seq<Summary>, s: Summary)
    requires TotalsOf(totals, summaries)
    ensures var t := TotalsAt(totals, s.category);
            TotalsOf(totals[s.category := Totals(t.evaluated + s.evaluated, t.failed + s.failed)], summaries + [s])
  {
    assert (summaries + [s])[..|summaries|] == summaries;
    var t := TotalsAt(totals, s.category);
    var after := totals[s.category := Totals(t.evaluated + s.evaluated, t.failed + s.failed)];
    forall c ensures TotalsAt(after, c) == Totals(EvaluatedIn(summaries + [s], c), FailedIn(summaries + [s], c)) {
      assert TotalsAt(totals, c) == Totals(EvaluatedIn(summaries, c), FailedIn(summaries, c));
    }
  }

  method Dimensions(summaries: seq<Summary>) returns (totals: map<Category, Totals>)
    ensures TotalsOf(totals, summaries) && FailedOverall(totals) == TotalFailed(summaries)
  {
    totals := map[];
    ghost var seen := [];
    for n := 0 to |summaries|
      invariant seen == summaries[..n] && TotalsOf(totals, seen)
    {
      var s := summaries[n];
      var t := TotalsAt(totals, s.category);
      TotalsNext(totals, seen, s);
      totals := totals[s.category := Totals(t.evaluated + s.evaluated, t.failed + s.failed)];
      seen := seen + [s];
    }
    assert seen == summaries;
    CategoriesAddUp(summaries);
  }

  /** The pass rate of a dimension before rounding. */
  function PassRate(t: Totals): real {
    if t.evaluated == 0 then 1.0 else 1.0 - t.failed as real / t.evaluated as real
  }

  ghost predicate Summarized(summaries: seq<Summary>, rules: seq<Rule>, records: seq<Record>, passes: (Rule, Record) -> bool) {
    && |summaries| == |rules|
    && forall r :: 0 <= r < |rules| ==> SummaryOf(summaries[r], rules[r], records, passes)
  }

  /** Issues are conserved: the failed counts of the rules add up to the issues. */
  lemma {:induction false} FailedCountsAddUp(summaries: seq<Summary>, rules: seq<Rule>, records: seq<Record>, passes: (Rule, Record) -> bool)
    requires Summarized(summaries, rules, records, passes)
    ensures TotalFailed(summaries) == |AllIssues(rules, records, passes)|
    decreases |rules|
  {
    if rules == [] {
    } else {
      var n := |rules| - 1;
      FailedCountsAddUp(summaries[..n], rules[..n], records, passes);
      assert SummaryOf(summaries[n], rules[n], records, passes);
    }
  }

  lemma {:induction false} FailedWithinEvaluated(summaries: seq<Summary>, rules: seq<Rule>, records: seq<Record>, passes: (Rule, Record) -> bool, c: Category)
    requires Summarized(summaries, rules, records, passes)
    ensures FailedIn(summaries, c) <= EvaluatedIn(summaries, c)
    decreases |rules|
  {
    if rules == [] {
    } else {
      var n := |rules| - 1;
      FailedWithinEvaluated(summaries[..n], rules[..n], records, passes, c);
      assert SummaryOf(summaries[n], rules[n], records, passes);
      IssuesBounded(rules[n], records, passes, |records|);
    }
  }

  lemma RateInRange(t: Totals)
    requires t.failed <= t.evaluated
    ensures 0.0 <= PassRate(t) <= 1.0
    ensures PassRate(t) * t.evaluated as real == (t.evaluated - t.failed) as real
    ensures PassRate(t) == 1.0 <==> t.failed == 0
  {
    if t.evaluated > 0 {
      var f, e := t.failed as real, t.evaluated as real;
      assert f / e * e == f;
    }
  }

  // ----- Blocking failures -----

  ghost function CountWithIds(issues: seq<Issue>, ids: set<string>): nat {
    if issues == [] then 0
    else CountWithIds(issues[..|issues| - 1], ids) + if issues[|issues| - 1].ruleId in ids then 1 else 0
  }

  ghost function CountBlocking(issues: seq<Issue>): nat {
    if issues == [] then 0
    else CountBlocking(issues[..|issues| - 1]) + if issues[|issues| - 1].blocking then 1 else 0
  }

  function BlockingIds(rules: seq<Rule>): set<string> {
    set r | 0 <= r < |rules| && rules[r].blocking :: rules[r].id
  }

  method CountBlockingFailures(issues: seq<Issue>, ids: set<string>) returns (count: nat)
    ensures count == CountWithIds(issues, ids)
  {
    count := 0;
    for n := 0 to |issues|
      invariant count == CountWithIds(issues[..n], ids)
    {
      assert issues[..n + 1][..n] == issues[..n];
      if issues[n].ruleId in ids {
        count := count + 1;
      }
    }
    assert issues[..|issues|] == issues;
  }

  ghost predicate Borrowed(issues: seq<Issue>, ids: set<string>) {
    exists k :: 0 <= k < |issues| && !issues[k].blocking && issues[k].ruleId in ids
  }

  lemma {:induction false} CountsCompare(issues: seq<Issue>, ids: set<string>)
    requires forall k :: 0 <= k < |issues| && issues[k].blocking ==> issues[k].ruleId in ids
    ensures CountBlocking(issues) <= CountWithIds(issues, ids)
    ensures CountBlocking(issues) == CountWithIds(issues, ids) <==> !Borrowed(issues, ids)
    decreases |issues|
  {
    if issues == [] {
    } else {
      var n := |issues| - 1;
      CountsCompare(issues[..n], ids);
      assert issues == issues[..n] + [issues[n]];
      BorrowedNext(issues[..n], issues[n], ids);
    }
  }

  lemma BorrowedNext(front: seq<Issue>, last: Issue, ids: set<string>)
    ensures Borrowed(front + [last], ids) <==> Borrowed(front, ids) || (!last.blocking && last.ruleId in ids)
  {
    var issues := front + [last];
    if Borrowed(issues, ids) {
      var k :| 0 <= k < |issues| && !issues[k].blocking && issues[k].ruleId in ids;
      if k < |front| {
        assert front[k] == issues[k];
      }
    }
    if Borrowed(front, ids) {
      var k :| 0 <= k < |front| && !front[k].blocking && front[k].ruleId in ids;
      assert issues[k] == front[k];
    }
    assert issues[|front|] == last;
  }

  ghost predicate FromRule(rules: seq<Rule>, issue: Issue, r: int) {
    0 <= r < |rules| && issue.ruleId == rules[r].id && issue.blocking == rules[r].blocking
  }

  lemma {:induction false} IssueHasRule(rules: seq<Rule>, records: seq<Record>, passes: (Rule, Record) -> bool, k: nat) returns (r: nat)
    requires k < |AllIssues(rules, records, passes)|
    ensures FromRule(rules, AllIssues(rules, records, passes)[k], r)
    ensures IssuesOf(rules[r], records, passes) != []
    decreases |rules|
  {
    var n := |rules| - 1;
    var front := AllIssues(rules[..n], records, passes);
    if k < |front| {
      r := IssueHasRule(rules[..n], records, passes, k);
    } else {
      r := n;
      IssuesBounded(rules[n], records, passes, |records|);
    }
  }

  lemma {:induction false} RuleHasIssue(rules: seq<Rule>, records: seq<Record>, passes: (Rule, Record) -> bool, r: nat) returns (k: nat)
    requires r < |rules| && IssuesOf(rules[r], records, passes) != []
    ensures k < |AllIssues(rules, records, passes)| && FromRule(rules, AllIssues(rules, records, passes)[k], r)
    decreases |rules|
  {
    var n := |rules| - 1;
    if r < n {
      k := RuleHasIssue(rules[..n], records, passes, r);
    } else {
      k := |AllIssues(rules[..n], records, passes)|;
      IssuesBounded(rules[n], records, passes, |records|);
    }
  }

  /** A failing rule that is not blocking uses the identifier of one that is. */
  ghost predicate IdentifierShared(rules: seq<Rule>, records: seq<Record>, passes: (Rule, Record) -> bool) {
    exists r :: 0 <= r < |rules| && !rules[r].blocking && rules[r].id in BlockingIds(rules) && IssuesOf(rules[r], records, passes) != []
  }

  /** Blocking failures are counted by rule identifier, which nothing makes unique: the
      figure is never too small, and it is the number of issues of blocking rules exactly
      when no failing rule shares its identifier with a blocking one. */
  lemma BlockingCountExactIff(rules: seq<Rule>, records: seq<Record>, passes: (Rule, Record) -> bool)
    ensures var issues := AllIssues(rules, records, passes);
            && CountBlocking(issues) <= CountWithIds(issues, BlockingIds(rules))
            && (CountBlocking(issues) == CountWithIds(issues, BlockingIds(rules)) <==> !IdentifierShared(rules, records, passes))
  {
    var issues, ids := AllIssues(rules, records, passes), BlockingIds(rules);
    forall k | 0 <= k < |issues| && issues[k].blocking ensures issues[k].ruleId in ids {
      var r := IssueHasRule(rules, records, passes, k);
    }
    CountsCompare(issues, ids);
    if Borrowed(issues, ids) {
      var k :| 0 <= k < |issues| && !issues[k].blocking && issues[k].ruleId in ids;
      var r := IssueHasRule(rules, records, passes, k);
    }
    if IdentifierShared(rules, records, passes) {
      var r :| 0 <= r < |rules| && !rules[r].blocking && rules[r].id in ids && IssuesOf(rules[r], records, passes) != [];
      var k := RuleHasIssue(rules, records, passes, r);
    }
  }

  const BLOCKING_RULE := Rule("r", true, ["x"], PerRecord(Required))
  const WARNING_RULE := Rule("r", false, ["y"], PerRecord(Required))

  /** Two rules with one identifier: the only issue is of the one that does not block, and it
      is counted as a blocking failure. */
  lemma SharedIdentifierOvercounts(passes: (Rule, Record) -> bool)
    requires passes(BLOCKING_RULE, map[]) && !passes(WARNING_RULE, map[])
    ensures var rules := [BLOCKING_RULE, WARNING_RULE];
            var issues := AllIssues(rules, [map[]], passes);
            CountBlocking(issues) == 0 && CountWithIds(issues, BlockingIds(rules)) == 1
  {
    var rules, records := [BLOCKING_RULE, WARNING_RULE], [map[]];
    assert IssuesUpTo(BLOCKING_RULE, records, passes, 0) == [] && IssuesUpTo(WARNING_RULE, records, passes, 0) == [];
    assert IssuesOf(BLOCKING_RULE, records, passes) == [];
    assert IssuesOf(WARNING_RULE, records, passes) == [Issue("r", false, 0)];
    assert rules[..1] == [BLOCKING_RULE] && rules[..1][..0] == [];
    assert AllIssues([BLOCKING_RULE], records, passes) == [];
    var issues := AllIssues(rules, records, passes);
    assert issues == [Issue("r", false, 0)] && issues[..0] == [];
    assert rules[0].id in BlockingIds(rules);
  }

  // ----- The whole run -----

  method Validate(rules: seq<Rule>, records: seq<Record>, passes: (Rule, Record) -> bool)
    returns (issues: seq<Issue>, summaries: seq<Summary>, totals: map<Category, Totals>, blockingFailures: nat)
    ensures issues == AllIssues(rules, records, passes)
    ensures Summarized(summaries, rules, records, passes)
    ensures FailedOverall(totals) == |issues| && TotalFailed(summaries) == |issues|
    ensures TotalsOf(totals, summaries)
    ensures forall c :: 0.0 <= PassRate(TotalsAt(totals, c)) <= 1.0
    ensures blockingFailures == CountWithIds(issues, BlockingIds(rules))
  {
    issues, summaries := [], [];
    for n := 0 to |rules|
      invariant issues == AllIssues(rules[..n], records, passes)
      invariant Summarized(summaries, rules[..n], records, passes)
    {
      assert rules[..n + 1][..n] == rules[..n];
      var found := IssuesFor(rules[n], records, passes);
      issues := issues + found;
      summaries := summaries + [Summary(rules[n].id, CategoryOf(rules[n].check), |records|, |found|, found == [])];
    }
    assert rules[..|rules|] == rules;
    totals := Dimensions(summaries);
    FailedCountsAddUp(summaries, rules, records, passes);
    forall c ensures 0.0 <= PassRate(TotalsAt(totals, c)) <= 1.0 {
      FailedWithinEvaluated(summaries, rules, records, passes, c);
      RateInRange(TotalsAt(totals, c));
    }
    blockingFailures := CountBlockingFailures(issues, BlockingIds(rules));
  }
}
