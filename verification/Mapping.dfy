/** The mapping engine: compiling a rule list, applying it to every record, and splitting
    the records into outputs and issues. */
module Mapping {
  import opened Collections
  import opened Values

  datatype Transform =
    | Copy | Trim | Lower | Upper | ParseDatetime | Lookup | Default | Concat | Split
    | Conditional | Pseudonymize | Plugin | Unsupported

  /** An empty source, `lookup` or `plugin` is one that is not given. */
  datatype MappingRule = MappingRule(
    target: string, source: Option<string>, transform: Transform,
    lookup: string, plugin: string, hasSalt: bool, required: bool)

  datatype CompileError = UnsupportedTransform | DuplicateTarget | NoLookup | NoPlugin | NoSalt

  /** A transformation returns, fails in one of the ways that become issues, or raises
      something else, which ends the call. */
  datatype Attempt = Mapped(value: Value) | Failed(reason: string) | Raised(reason: string)

  datatype Issue = Issue(sourceKey: string, sequence: nat, target: string, reason: string)

  datatype Outcome =
    | NotCompiled(error: CompileError)
    | Aborted(reason: string)
    | Executed(outputs: seq<Record>, issues: seq<Issue>, inputCount: nat)

  // ----- Compiling -----

  /** What is wrong with rule `i`, seen after the rules before it. */
  ghost function Defect(rules: seq<MappingRule>, i: nat, lookups: set<string>, plugins: set<string>): Option<CompileError>
    requires i < |rules|
  {
    var rule := rules[i];
    if rule.transform == Unsupported then Some(UnsupportedTransform)
    else if exists j :: 0 <= j < i && rules[j].target == rule.target then Some(DuplicateTarget)
    else if rule.transform == Lookup && (rule.lookup == "" || rule.lookup !in lookups) then Some(NoLookup)
    else if rule.transform == Plugin && (rule.plugin == "" || rule.plugin !in plugins) then Some(NoPlugin)
    else if rule.transform == Pseudonymize && !rule.hasSalt then Some(NoSalt)
    else None
  }

  ghost predicate SoundBefore(rules: seq<MappingRule>, n: nat, lookups: set<string>, plugins: set<string>)
    requires n <= |rules|
  {
    forall i :: 0 <= i < n ==> Defect(rules, i, lookups, plugins).None?
  }

  /** The first defect of the first defective rule is reported. */
  method Compile(rules: seq<MappingRule>, lookups: set<string>, plugins: set<string>) returns (error: Option<CompileError>)
    ensures error.None? <==> SoundBefore(rules, |rules|, lookups, plugins)
    ensures error.Some? ==> exists i :: 0 <= i < |rules| && SoundBefore(rules, i, lookups, plugins) && Defect(rules, i, lookups, plugins) == error
  {
    var targets: set<string> := {};
    for i := 0 to |rules|
      invariant forall t :: t in targets <==> exists j :: 0 <= j < i && rules[j].target == t
      invariant SoundBefore(rules, i, lookups, plugins)
    {
      var rule := rules[i];
      ghost var defect := Defect(rules, i, lookups, plugins);
      if rule.transform == Unsupported {
        return Some(UnsupportedTransform);
      }
      if rule.target in targets {
        return Some(DuplicateTarget);
      }
      targets := targets + {rule.target};
      if rule.transform == Lookup && (rule.lookup == "" || rule.lookup !in lookups) {
        return Some(NoLookup);
      }
      if rule.transform == Plugin && (rule.plugin == "" || rule.plugin !in plugins) {
        return Some(NoPlugin);
      }
      if rule.transform == Pseudonymize && !rule.hasSalt {
        return Some(NoSalt);
      }
    }
    error := None;
  }

  /** Targets of a compiled rule list are pairwise different. */
  ghost predicate DistinctTargets(rules: seq<MappingRule>) {
    forall i, j :: 0 <= i < j < |rules| ==> rules[i].target != rules[j].target
  }

  lemma CompiledTargetsDistinct(rules: seq<MappingRule>, lookups: set<string>, plugins: set<string>)
    requires SoundBefore(rules, |rules|, lookups, plugins)
    ensures DistinctTargets(rules)
  {
    forall i, j | 0 <= i < j < |rules| ensures rules[i].target != rules[j].target {
      assert Defect(rules, j, lookups, plugins).None?;
    }
  }

  /** The transformation is known and has the lookup, plugin or salt that it needs. */
  predicate Usable(rule: MappingRule, lookups: set<string>, plugins: set<string>) {
    match rule.transform
    case Unsupported => false
    case Lookup => rule.lookup != "" && rule.lookup in lookups
    case Plugin => rule.plugin != "" && rule.plugin in plugins
    case Pseudonymize => rule.hasSalt
    case _ => true
  }

  /** A rule list compiles exactly when every rule is usable and no target occurs twice. */
  lemma CompiledExactly(rules: seq<MappingRule>, lookups: set<string>, plugins: set<string>)
    ensures SoundBefore(rules, |rules|, lookups, plugins) <==>
            DistinctTargets(rules) && forall i :: 0 <= i < |rules| ==> Usable(rules[i], lookups, plugins)
  {
    if SoundBefore(rules, |rules|, lookups, plugins) {
      CompiledTargetsDistinct(rules, lookups, plugins);
      forall i | 0 <= i < |rules| ensures Usable(rules[i], lookups, plugins) {
        assert Defect(rules, i, lookups, plugins).None?;
      }
    }
  }

  // ----- One record -----

  const KEY_FIELD := "source_record_key"

  function Digit(d: nat): char
    requires d < 10
  {
    '0' + d as char
  }

  function Decimal(n: nat): string {
    if n < 10 then [Digit(n)] else Decimal(n / 10) + [Digit(n % 10)]
  }

  /** The first key field with a true value, or the row number. */
  function SourceKey(record: Record, index: nat): string {
    if Truthy(Get(record, "record_key")) then Get(record, "record_key").text
    else if Truthy(Get(record, "employee_id")) then Get(record, "employee_id").text
    else if Truthy(Get(record, "assignment_id")) then Get(record, "assignment_id").text
    else if Truthy(Get(record, KEY_FIELD)) then Get(record, KEY_FIELD).text
    else "row-" + Decimal(index + 1)
  }

  /** The number that a string of digits stands for. */
  function Parse(digits: string): int {
    if digits == "" then 0
    else Parse(digits[..|digits| - 1]) * 10 + (digits[|digits| - 1] as int - '0' as int)
  }

  lemma {:induction false} DecimalReadsBack(n: nat)
    ensures Parse(Decimal(n)) == n
  {
    if n < 10 {
      assert Decimal(n)[..0] == "";
    } else {
      DecimalReadsBack(n / 10);
      assert Decimal(n)[..|Decimal(n)| - 1] == Decimal(n / 10);
    }
  }

  /** Null, the empty text, or a value such as zero that counts as false. */
  ghost predicate Missing(v: Value) {
    v == Null || v == Text("") || (v.Other? && !v.truthy)
  }

  /** Which field names the record: the first of four that is not missing, in this order;
      without one, the row is named by its number from 1. */
  lemma SourceKeyExactly(record: Record, index: nat)
    ensures var key := SourceKey(record, index);
            var a, b, c, d := Get(record, "record_key"), Get(record, "employee_id"), Get(record, "assignment_id"), Get(record, "source_record_key");
            if !Missing(a) then key == a.text
            else if !Missing(b) then key == b.text
            else if !Missing(c) then key == c.text
            else if !Missing(d) then key == d.text
            else NamesRow(key, index)
  {
    MissingIsFalse(Get(record, "record_key"));
    MissingIsFalse(Get(record, "employee_id"));
    MissingIsFalse(Get(record, "assignment_id"));
    MissingIsFalse(Get(record, KEY_FIELD));
    RowName(index);
  }

  lemma MissingIsFalse(v: Value)
    ensures Missing(v) <==> !Truthy(v)
  {
  }

  lemma RowName(index: nat)
    ensures NamesRow("row-" + Decimal(index + 1), index)
  {
    DecimalReadsBack(index + 1);
    var row := "row-" + Decimal(index + 1);
    assert row[..4] == "row-" && row[4..] == Decimal(index + 1);
  }

  ghost predicate NamesRow(key: string, index: nat) {
    |key| >= 4 && key[..4] == "row-" && Parse(key[4..]) == index + 1
  }

  /** The individual transformations are a parameter. */
  type Transformer = (MappingRule, Value, Record) -> Attempt

  function Try(rule: MappingRule, record: Record, transform: Transformer): Attempt {
    var attempt := transform(rule, if rule.source.Some? && rule.source.value != "" then Get(record, rule.source.value) else Null, record);
    if attempt.Mapped? && rule.required && Blank(attempt.value) then Failed("required mapped value is blank") else attempt
  }

  /** The issues of the first `n` rules on a record, numbered from 1. */
  ghost function RecordIssues(rules: seq<MappingRule>, n: nat, record: Record, index: nat, transform: Transformer): seq<Issue>
    requires n <= |rules|
  {
    if n == 0 then []
    else
      var attempt := Try(rules[n - 1], record, transform);
      RecordIssues(rules, n - 1, record, index, transform) +
      if attempt.Failed? then [Issue(SourceKey(record, index), n, rules[n - 1].target, attempt.reason)] else []
  }

  ghost predicate RaisedAt(rules: seq<MappingRule>, record: Record, transform: Transformer, r: int) {
    0 <= r < |rules| && Try(rules[r], record, transform).Raised?
  }

  /** None of the first `n` rules raises on the record. */
  ghost predicate Quiet(rules: seq<MappingRule>, n: nat, record: Record, transform: Transformer) {
    forall r {:trigger RaisedAt(rules, record, transform, r)} :: r < n ==> !RaisedAt(rules, record, transform, r)
  }

  /** Rule `r` is the first to raise on the record. */
  ghost predicate FirstRaise(rules: seq<MappingRule>, record: Record, transform: Transformer, r: nat, reason: string) {
    RaisedAt(rules, record, transform, r) && Quiet(rules, r, record, transform) && Try(rules[r], record, transform).reason == reason
  }

  ghost predicate Clean(rules: seq<MappingRule>, record: Record, transform: Transformer) {
    forall r :: 0 <= r < |rules| ==> Try(rules[r], record, transform).Mapped?
  }

  /** What a mapped record must look like: each target holds its rule's value, the key field
      the source key, and every other field its default. */
  ghost predicate IsOutput(output: Record, rules: seq<MappingRule>, record: Record, index: nat, defaults: Record, transform: Transformer) {
    && KEY_FIELD in output && output[KEY_FIELD] == Text(SourceKey(record, index))
    && (forall r :: 0 <= r < |rules| && rules[r].target != KEY_FIELD ==>
          rules[r].target in output && Try(rules[r], record, transform) == Mapped(output[rules[r].target]))
    && (forall f :: f != KEY_FIELD && !Targeted(rules, |rules|, f) ==> (f in output <==> f in defaults))
    && (forall f :: f != KEY_FIELD && !Targeted(rules, |rules|, f) && f in defaults ==> f in output && output[f] == defaults[f])
  }

  ghost predicate Targeted(rules: seq<MappingRule>, n: nat, field: string)
    requires n <= |rules|
  {
    exists r :: 0 <= r < n && rules[r].target == field
  }

  lemma {:induction false} CleanMeansNoIssues(rules: seq<MappingRule>, n: nat, record: Record, index: nat, transform: Transformer)
    requires n <= |rules| && Quiet(rules, n, record, transform)
    ensures RecordIssues(rules, n, record, index, transform) == [] <==>
            forall r :: 0 <= r < n ==> Try(rules[r], record, transform).Mapped?
  {
    if n == 0 {
    } else {
      CleanMeansNoIssues(rules, n - 1, record, index, transform);
      assert !RaisedAt(rules, record, transform, n - 1);
    }
  }

  lemma OutputUnique(a: Record, b: Record, rules: seq<MappingRule>, record: Record, index: nat, defaults: Record, transform: Transformer)
    requires IsOutput(a, rules, record, index, defaults, transform) && IsOutput(b, rules, record, index, defaults, transform)
    ensures a == b
  {
    forall f ensures f in a <==> f in b {
      if f != KEY_FIELD && Targeted(rules, |rules|, f) {
        var r :| 0 <= r < |rules| && rules[r].target == f;
      }
    }
    forall f | f in a && f in b ensures a[f] == b[f] {
      if f != KEY_FIELD && Targeted(rules, |rules|, f) {
        var r :| 0 <= r < |rules| && rules[r].target == f;
        assert Try(rules[r], record, transform) == Mapped(a[f]);
      }
    }
  }

  /** A required target of an output is neither null nor empty. */
  lemma RequiredIsGiven(output: Record, rules: seq<MappingRule>, record: Record, index: nat, defaults: Record, transform: Transformer, r: nat)
    requires IsOutput(output, rules, record, index, defaults, transform)
    requires r < |rules| && rules[r].required && rules[r].target != "source_record_key"
    ensures rules[r].target in output && output[rules[r].target] != Null && output[rules[r].target] != Text("")
  {
  }

  /** A rule that copies carries its source field, or null where the record or the rule has none. */
  lemma CopyCarriesField(output: Record, rules: seq<MappingRule>, record: Record, index: nat, defaults: Record, transform: Transformer, r: nat)
    requires IsOutput(output, rules, record, index, defaults, transform)
    requires r < |rules| && rules[r].target != "source_record_key" && forall v :: transform(rules[r], v, record) == Mapped(v)
    ensures rules[r].target in output
    ensures output[rules[r].target] ==
            if rules[r].source.Some? && rules[r].source.value != "" && rules[r].source.value in record then record[rules[r].source.value] else Null
  {
  }

  /** The issues of a record are its failing rules, each with its number and target. */
  lemma {:induction false} IssuesNameRules(rules: seq<MappingRule>, n: nat, record: Record, index: nat, transform: Transformer, issue: Issue)
    requires n <= |rules|
    ensures issue in RecordIssues(rules, n, record, index, transform) <==>
            && 1 <= issue.sequence <= n && issue.target == rules[issue.sequence - 1].target
            && issue.sourceKey == SourceKey(record, index)
            && Try(rules[issue.sequence - 1], record, transform) == Failed(issue.reason)
  {
    if n == 0 {
    } else {
      IssuesNameRules(rules, n - 1, record, index, transform, issue);
    }
  }

  /** What the first `n` rules have written over the defaults. */
  ghost predicate Written(output: Record, rules: seq<MappingRule>, n: nat, record: Record, defaults: Record, transform: Transformer)
    requires n <= |rules|
  {
    && (forall r :: 0 <= r < n && Try(rules[r], record, transform).Mapped? ==>
          rules[r].target in output && Try(rules[r], record, transform) == Mapped(output[rules[r].target]))
    && (forall f :: !Targeted(rules, n, f) ==> (f in output <==> f in defaults))
    && (forall f :: !Targeted(rules, n, f) && f in defaults ==> f in output && output[f] == defaults[f])
  }

  lemma WriteNext(output: Record, rules: seq<MappingRule>, n: nat, record: Record, defaults: Record, transform: Transformer)
    requires n < |rules| && DistinctTargets(rules) && Written(output, rules, n, record, defaults, transform)
    ensures var attempt := Try(rules[n], record, transform);
            Written(if attempt.Mapped? then output[rules[n].target := attempt.value] else output, rules, n + 1, record, defaults, transform)
  {
    assert Targeted(rules, n + 1, rules[n].target);
    forall f ensures Targeted(rules, n + 1, f) <==> Targeted(rules, n, f) || f == rules[n].target {
    }
  }

  lemma WrittenIsOutput(output: Record, rules: seq<MappingRule>, record: Record, index: nat, defaults: Record, transform: Transformer)
    requires Written(output, rules, |rules|, record, defaults, transform) && Clean(rules, record, transform)
    ensures IsOutput(output[KEY_FIELD := Text(SourceKey(record, index))], rules, record, index, defaults, transform)
  {
  }

  /** The rule loop over one record. It stops at the first rule that raises. */
  method ApplyRules(rules: seq<MappingRule>, record: Record, index: nat, defaults: Record, transform: Transformer)
    returns (output: Record, issues: seq<Issue>, raised: Option<string>)
    requires DistinctTargets(rules)
    ensures raised.None? <==> Quiet(rules, |rules|, record, transform)
    ensures raised.Some? ==> exists r :: FirstRaise(rules, record, transform, r, raised.value)
    ensures raised.None? ==>
              issues == RecordIssues(rules, |rules|, record, index, transform) && Written(output, rules, |rules|, record, defaults, transform)
  {
    output, issues, raised := defaults, [], None;
    for n := 0 to |rules|
      invariant Quiet(rules, n, record, transform)
      invariant issues == RecordIssues(rules, n, record, index, transform)
      invariant Written(output, rules, n, record, defaults, transform)
    {
      var attempt := Try(rules[n], record, transform);
      if attempt.Raised? {
        assert RaisedAt(rules, record, transform, n) && FirstRaise(rules, record, transform, n, attempt.reason);
        return output, issues, Some(attempt.reason);
      }
      QuietNext(rules, n, record, transform);
      WriteNext(output, rules, n, record, defaults, transform);
      if attempt.Mapped? {
        output := output[rules[n].target := attempt.value];
      } else {
        issues := issues + [Issue(SourceKey(record, index), n + 1, rules[n].target, attempt.reason)];
      }
    }
  }

  /** One record: its output, its issues, or the exception that ends the call. */
  method MapRecord(rules: seq<MappingRule>, record: Record, index: nat, defaults: Record, transform: Transformer)
    returns (output: Record, issues: seq<Issue>, raised: Option<string>)
    requires DistinctTargets(rules)
    ensures raised.None? <==> Quiet(rules, |rules|, record, transform)
    ensures raised.Some? ==> exists r :: FirstRaise(rules, record, transform, r, raised.value)
    ensures raised.None? ==>
              && issues == RecordIssues(rules, |rules|, record, index, transform)
              && (issues == [] <==> Clean(rules, record, transform))
              && (issues == [] ==> IsOutput(output, rules, record, index, defaults, transform))
  {
    output, issues, raised := ApplyRules(rules, record, index, defaults, transform);
    if raised.None? {
      CleanMeansNoIssues(rules, |rules|, record, index, transform);
      if issues == [] {
        WrittenIsOutput(output, rules, record, index, defaults, transform);
        output := output[KEY_FIELD := Text(SourceKey(record, index))];
      }
    }
  }

  lemma QuietNext(rules: seq<MappingRule>, n: nat, record: Record, transform: Transformer)
    requires n < |rules| && Quiet(rules, n, record, transform) && !Try(rules[n], record, transform).Raised?
    ensures Quiet(rules, n + 1, record, transform)
  {
  }

  // ----- All records -----

  ghost function CleanBefore(rules: seq<MappingRule>, records: seq<Record>, transform: Transformer, n: nat): nat
    requires n <= |records|
  {
    if n == 0 then 0
    else CleanBefore(rules, records, transform, n - 1) + if Clean(rules, records[n - 1], transform) then 1 else 0
  }

  /** The issues of the first `n` records, in record and rule order. */
  ghost function IssuesBefore(rules: seq<MappingRule>, records: seq<Record>, transform: Transformer, n: nat): seq<Issue>
    requires n <= |records|
  {
    if n == 0 then []
    else IssuesBefore(rules, records, transform, n - 1) + RecordIssues(rules, |rules|, records[n - 1], n - 1, transform)
  }

  /** Each clean record has its output, at the place that its rank among clean records gives. */
  ghost predicate OutputsAre(outputs: seq<Record>, rules: seq<MappingRule>, records: seq<Record>, defaults: Record, transform: Transformer, n: nat)
    requires n <= |records|
  {
    && |outputs| == CleanBefore(rules, records, transform, n)
    && forall i {:trigger HasPlace(outputs, rules, records, defaults, transform, i)} ::
         0 <= i < n ==> HasPlace(outputs, rules, records, defaults, transform, i)
  }

  ghost predicate HasPlace(outputs: seq<Record>, rules: seq<MappingRule>, records: seq<Record>, defaults: Record, transform: Transformer, i: nat)
    requires i < |records|
  {
    Clean(rules, records[i], transform) ==>
      var place := CleanBefore(rules, records, transform, i);
      place < |outputs| && IsOutput(outputs[place], rules, records[i], i, defaults, transform)
  }

  /** The first `limit` records; a negative limit leaves that many off the end. */
  function Head(records: seq<Record>, limit: Option<int>): (r: seq<Record>)
    ensures r <= records
    ensures limit == None ==> |r| == |records|
    ensures limit.Some? && limit.value >= 0 ==> |r| == limit.value || |r| == |records| < limit.value
    ensures limit.Some? && limit.value < 0 ==> |r| == |records| + limit.value || |r| == 0 > |records| + limit.value
  {
    if limit.None? then records
    else if limit.value >= |records| then records
    else if limit.value >= 0 then records[..limit.value]
    else if -limit.value >= |records| then []
    else records[..|records| + limit.value]
  }

  /** No rule raises on the first `n` records. */
  ghost predicate QuietRecords(rules: seq<MappingRule>, records: seq<Record>, transform: Transformer, n: nat)
    requires n <= |records|
  {
    forall i {:trigger records[i]} :: 0 <= i < n ==> Quiet(rules, |rules|, records[i], transform)
  }

  /** The first raise of the first record on which a rule raises. */
  ghost predicate AbortsAt(rules: seq<MappingRule>, records: seq<Record>, transform: Transformer, i: nat, reason: string) {
    && i < |records| && QuietRecords(rules, records, transform, i)
    && exists r :: FirstRaise(rules, records[i], transform, r, reason)
  }

  ghost predicate IsExecution(r: Outcome, rules: seq<MappingRule>, records: seq<Record>, defaults: Record, transform: Transformer) {
    && r.Executed? && r.inputCount == |records| && QuietRecords(rules, records, transform, |records|)
    && OutputsAre(r.outputs, rules, records, defaults, transform, |records|)
    && r.issues == IssuesBefore(rules, records, transform, |records|)
  }

  lemma OutputsNext(outputs: seq<Record>, output: Record, rules: seq<MappingRule>, records: seq<Record>, defaults: Record, transform: Transformer, n: nat)
    requires n < |records| && OutputsAre(outputs, rules, records, defaults, transform, n)
    requires Clean(rules, records[n], transform) ==> IsOutput(output, rules, records[n], n, defaults, transform)
    ensures OutputsAre(if Clean(rules, records[n], transform) then outputs + [output] else outputs, rules, records, defaults, transform, n + 1)
  {
    var more := if Clean(rules, records[n], transform) then outputs + [output] else outputs;
    forall i | 0 <= i < n + 1 ensures HasPlace(more, rules, records, defaults, transform, i) {
      if i < n {
        assert HasPlace(outputs, rules, records, defaults, transform, i);
      }
    }
  }

  method Execute(records: seq<Record>, rules: seq<MappingRule>, lookups: set<string>, plugins: set<string>,
                 defaults: Record, transform: Transformer, limit: Option<int>) returns (r: Outcome)
    ensures r.NotCompiled? <==> !SoundBefore(rules, |rules|, lookups, plugins)
    ensures r.NotCompiled? ==>
              exists i :: 0 <= i < |rules| && SoundBefore(rules, i, lookups, plugins) && Defect(rules, i, lookups, plugins) == Some(r.error)
    ensures r.Executed? ==> IsExecution(r, rules, Head(records, limit), defaults, transform)
    ensures r.Aborted? ==> exists i :: AbortsAt(rules, Head(records, limit), transform, i, r.reason)
  {
    var error := Compile(rules, lookups, plugins);
    if error.Some? {
      return NotCompiled(error.value);
    }
    CompiledTargetsDistinct(rules, lookups, plugins);
    var selected := Head(records, limit);
    var outputs, issues := [], [];
    for n := 0 to |selected|
      invariant QuietRecords(rules, selected, transform, n)
      invariant OutputsAre(outputs, rules, selected, defaults, transform, n)
      invariant issues == IssuesBefore(rules, selected, transform, n)
    {
      var output, found, raised := MapRecord(rules, selected[n], n, defaults, transform);
      if raised.Some? {
        assert AbortsAt(rules, selected, transform, n, raised.value);
        return Aborted(raised.value);
      }
      OutputsNext(outputs, output, rules, selected, defaults, transform, n);
      if found != [] {
        issues := issues + found;
      } else {
        outputs := outputs + [output];
      }
    }
    r := Executed(outputs, issues, |selected|);
  }

  // ----- Consequences -----

  lemma {:induction false} CleanBeforeGrows(rules: seq<MappingRule>, records: seq<Record>, transform: Transformer, i: nat, n: nat)
    requires i < n <= |records|
    ensures CleanBefore(rules, records, transform, i) <= CleanBefore(rules, records, transform, n) <= n
    ensures Clean(rules, records[i], transform) ==> CleanBefore(rules, records, transform, i) < CleanBefore(rules, records, transform, n)
    decreases n
  {
    if i < n - 1 {
      CleanBeforeGrows(rules, records, transform, i, n - 1);
    } else if i > 0 {
      CleanBeforeGrows(rules, records, transform, 0, i);
    }
  }

  /** The place of each output belongs to one clean record. */
  lemma {:induction false} PlaceHasRecord(rules: seq<MappingRule>, records: seq<Record>, transform: Transformer, n: nat, place: nat) returns (i: nat)
    requires n <= |records| && place < CleanBefore(rules, records, transform, n)
    ensures i < n && Clean(rules, records[i], transform) && CleanBefore(rules, records, transform, i) == place
  {
    if place < CleanBefore(rules, records, transform, n - 1) {
      i := PlaceHasRecord(rules, records, transform, n - 1, place);
    } else {
      i := n - 1;
    }
  }

  lemma {:induction false} PrefixCounts(rules: seq<MappingRule>, records: seq<Record>, transform: Transformer, m: nat, n: nat)
    requires n <= m <= |records|
    ensures CleanBefore(rules, records[..m], transform, n) == CleanBefore(rules, records, transform, n)
    ensures IssuesBefore(rules, records[..m], transform, n) == IssuesBefore(rules, records, transform, n)
    decreases n
  {
    if n == 0 {
    } else {
      PrefixCounts(rules, records, transform, m, n - 1);
    }
  }

  lemma {:induction false} IssuesPrefix(rules: seq<MappingRule>, records: seq<Record>, transform: Transformer, m: nat, n: nat)
    requires m <= n <= |records|
    ensures IssuesBefore(rules, records, transform, m) <= IssuesBefore(rules, records, transform, n)
    decreases n
  {
    if m < n {
      IssuesPrefix(rules, records, transform, m, n - 1);
    }
  }

  lemma SameOutputAt(short: seq<Record>, long: seq<Record>, rules: seq<MappingRule>, records: seq<Record>,
                     defaults: Record, transform: Transformer, m: nat, place: nat)
    requires m <= |records|
    requires OutputsAre(short, rules, records[..m], defaults, transform, m)
    requires OutputsAre(long, rules, records, defaults, transform, |records|)
    requires place < |short|
    ensures place < |long| && short[place] == long[place]
  {
    var i := PlaceHasRecord(rules, records[..m], transform, m, place);
    PrefixCounts(rules, records, transform, m, i);
    assert HasPlace(short, rules, records[..m], defaults, transform, i);
    assert HasPlace(long, rules, records, defaults, transform, i);
    OutputUnique(short[place], long[place], rules, records[i], i, defaults, transform);
  }

  /** A preview returns a prefix of the outputs and a prefix of the issues of the full run. */
  lemma PreviewIsPrefix(preview: Outcome, full: Outcome, rules: seq<MappingRule>, records: seq<Record>,
                        defaults: Record, transform: Transformer, limit: Option<int>)
    requires IsExecution(preview, rules, Head(records, limit), defaults, transform)
    requires IsExecution(full, rules, records, defaults, transform)
    ensures preview.outputs <= full.outputs && preview.issues <= full.issues
  {
    var m := |Head(records, limit)|;
    assert Head(records, limit) == records[..m];
    PrefixCounts(rules, records, transform, m, m);
    IssuesPrefix(rules, records, transform, m, |records|);
    forall place: nat | place < |preview.outputs| ensures place < |full.outputs| && preview.outputs[place] == full.outputs[place] {
      SameOutputAt(preview.outputs, full.outputs, rules, records, defaults, transform, m, place);
    }
    var count := |preview.outputs|;
    if count > 0 {
      SameOutputAt(preview.outputs, full.outputs, rules, records, defaults, transform, m, count - 1);
    }
    assert full.outputs[..count] == preview.outputs;
  }

  /** The records with at least one issue. */
  ghost function Refused(rules: seq<MappingRule>, records: seq<Record>, transform: Transformer): set<nat> {
    set i: nat | i < |records| && RecordIssues(rules, |rules|, records[i], i, transform) != []
  }

  lemma RefusedNext(rules: seq<MappingRule>, records: seq<Record>, transform: Transformer, n: nat)
    requires n < |records| && Quiet(rules, |rules|, records[n], transform)
    ensures |Refused(rules, records[..n + 1], transform)| ==
            |Refused(rules, records[..n], transform)| + if Clean(rules, records[n], transform) then 0 else 1
  {
    var before, now := Refused(rules, records[..n], transform), Refused(rules, records[..n + 1], transform);
    CleanMeansNoIssues(rules, |rules|, records[n], n, transform);
    forall i: nat ensures i in now <==> i in before || (i == n && !Clean(rules, records[n], transform)) {
      assert i < n ==> records[..n][i] == records[..n + 1][i];
    }
    if Clean(rules, records[n], transform) {
      assert now == before;
    } else {
      assert now == before + {n};
    }
  }

  lemma {:induction false} RefusedCount(rules: seq<MappingRule>, records: seq<Record>, transform: Transformer, n: nat)
    requires n <= |records| && QuietRecords(rules, records, transform, n)
    ensures CleanBefore(rules, records, transform, n) + |Refused(rules, records[..n], transform)| == n
  {
    if n == 0 {
    } else {
      RefusedCount(rules, records, transform, n - 1);
      RefusedNext(rules, records, transform, n - 1);
    }
  }

  /** No record is lost or served twice: each has its one output or at least one issue. */
  lemma EveryRecordAccountedFor(r: Outcome, rules: seq<MappingRule>, records: seq<Record>, defaults: Record, transform: Transformer)
    requires IsExecution(r, rules, records, defaults, transform)
    ensures |r.outputs| + |Refused(rules, records, transform)| == |records|
  {
    RefusedCount(rules, records, transform, |records|);
    assert records[..|records|] == records;
  }
}
