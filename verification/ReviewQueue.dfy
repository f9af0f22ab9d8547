/** The exception queue: which quarantine records a filter selects, the three orders in
    which they are listed, the pages cut from the list and the counts beside it. */
module ReviewQueue {
  import opened Keys
  import opened Collections
  import Ledger

  datatype Severity = Blocking | Error | Warning | Other

  datatype Rule = Rule(organization: nat, severity: Severity, title: string, ruleKey: string)

  datatype Item = Item(id: Key, organization: nat, ruleId: nat, status: string, recordKey: string, created: int)

  /** A listed record with the rule it failed. */
  datatype Row = Row(item: Item, rule: Rule)

  datatype Filter = Filter(status: Option<string>, severity: Option<Severity>, needsAttention: bool, search: string)

  datatype SortBy = Oldest | Newest | MostSevere

  // ----- Selection -----

  /** The join of records and rules. */
  function Joined(items: seq<Item>, rules: map<nat, Rule>): (rows: seq<Row>)
    ensures forall row :: row in rows <==> row.item in items && row.item.ruleId in rules && row.rule == rules[row.item.ruleId]
  {
    if items == [] then []
    else
      assert items == [items[0]] + items[1..];
      (if items[0].ruleId in rules then [Row(items[0], rules[items[0].ruleId])] else []) + Joined(items[1..], rules)
  }

  /** Case-insensitive containment is a parameter; an empty search selects everything. */
  predicate Selects(f: Filter, organization: nat, contains: (string, string) -> bool, row: Row) {
    && row.item.organization == organization && row.rule.organization == organization
    && (f.status.Some? ==> row.item.status == f.status.value)
    && (f.severity.Some? ==> row.rule.severity == f.severity.value)
    && (f.needsAttention ==> Ledger.Attention(row.item.status))
    && (f.search != "" ==> contains(row.item.recordKey, f.search) || contains(row.rule.title, f.search) || contains(row.rule.ruleKey, f.search))
  }

  function Selected(items: seq<Item>, rules: map<nat, Rule>, organization: nat, f: Filter, contains: (string, string) -> bool): seq<Row> {
    Where(Joined(items, rules), row => Selects(f, organization, contains, row))
  }

  // ----- Order -----

  function Rank(s: Severity): nat {
    match s
    case Blocking => 0
    case Error => 1
    case Warning => 2
    case Other => 3
  }

  predicate Earlier(a: Item, b: Item) {
    a.created < b.created || (a.created == b.created && AtMost(a.id, b.id))
  }

  predicate Ordered(order: SortBy, a: Row, b: Row) {
    match order
    case Oldest => Earlier(a.item, b.item)
    case Newest => Earlier(b.item, a.item)
    case MostSevere =>
      Rank(a.rule.severity) < Rank(b.rule.severity)
      || (Rank(a.rule.severity) == Rank(b.rule.severity) && Earlier(a.item, b.item))
  }

  function Listed(rows: seq<Row>, order: SortBy): seq<Row> {
    Sort(rows, (a, b) => Ordered(order, a, b))
  }

  lemma EarlierTotal(a: Item, b: Item, c: Item)
    ensures Earlier(a, b) || Earlier(b, a)
    ensures Earlier(a, b) && Earlier(b, c) ==> Earlier(a, c)
    ensures Earlier(a, b) && Earlier(b, a) ==> a.id == b.id
  {
    PrecedesTotal(a.id, b.id);
    if Precedes(a.id, b.id) {
      PrecedesAsymmetric(a.id, b.id);
      if Precedes(b.id, c.id) {
        PrecedesTransitive(a.id, b.id, c.id);
      }
    }
  }

  lemma OrderedTotal(order: SortBy)
    ensures TotalPreorder((a, b) => Ordered(order, a, b))
    ensures forall a, b :: Ordered(order, a, b) && Ordered(order, b, a) ==> a.item.id == b.item.id
  {
    forall a: Row, b: Row, c: Row
      ensures Ordered(order, a, b) || Ordered(order, b, a)
      ensures Ordered(order, a, b) && Ordered(order, b, c) ==> Ordered(order, a, c)
      ensures Ordered(order, a, b) && Ordered(order, b, a) ==> a.item.id == b.item.id
    {
      EarlierTotal(a.item, b.item, c.item);
      EarlierTotal(c.item, b.item, a.item);
    }
  }

  ghost predicate InOrderBy(rows: seq<Row>, order: SortBy) {
    forall i, j {:trigger Ordered(order, rows[i], rows[j])} :: 0 <= i < j < |rows| ==> Ordered(order, rows[i], rows[j])
  }

  ghost predicate IdentifiedBy(rows: multiset<Row>) {
    forall a, b {:trigger SameId(a, b)} :: a in rows && b in rows && SameId(a, b) ==> a == b
  }

  predicate SameId(a: Row, b: Row) {
    a.item.id == b.item.id
  }

  lemma InOrderTail(rows: seq<Row>, order: SortBy)
    requires rows != [] && InOrderBy(rows, order)
    ensures InOrderBy(rows[1..], order)
  {
    forall i, j | 0 <= i < j < |rows| - 1 ensures Ordered(order, rows[1..][i], rows[1..][j]) {
      assert Ordered(order, rows[i + 1], rows[j + 1]);
    }
  }

  lemma HeadIsLeast(rows: seq<Row>, order: SortBy, a: Row)
    requires rows != [] && InOrderBy(rows, order) && a in rows
    ensures Ordered(order, rows[0], a)
  {
    OrderedTotal(order);
    var leq := (a, b) => Ordered(order, a, b);
    assert leq(a, a);
    var j :| 0 <= j < |rows| && rows[j] == a;
    assert j == 0 || Ordered(order, rows[0], rows[j]);
  }

  lemma SameHead(r: seq<Row>, s: seq<Row>, order: SortBy)
    requires r != [] && s != [] && r[0] in s && s[0] in r
    requires IdentifiedBy(multiset(r)) && InOrderBy(r, order) && InOrderBy(s, order)
    ensures r[0] == s[0]
  {
    HeadIsLeast(r, order, s[0]);
    HeadIsLeast(s, order, r[0]);
    OrderedTotal(order);
    assert r[0] in multiset(r) && s[0] in multiset(r) && SameId(r[0], s[0]);
  }

  lemma DropHead(r: seq<Row>, rows: multiset<Row>)
    requires r != [] && multiset(r) == rows
    ensures multiset(r[1..]) == rows - multiset{r[0]}
  {
    assert r == [r[0]] + r[1..];
  }

  /** The identifier breaks every tie: two lists of the same rows in one order are equal. */
  lemma {:induction false} OneListPerOrder(r: seq<Row>, s: seq<Row>, order: SortBy)
    requires multiset(r) == multiset(s) && IdentifiedBy(multiset(r))
    requires InOrderBy(r, order) && InOrderBy(s, order)
    ensures r == s
    decreases |r|
  {
    SameMembers(r, s);
    if r != [] {
      SameHead(r, s, order);
      DropHead(r, multiset(r));
      DropHead(s, multiset(r));
      InOrderTail(r, order);
      InOrderTail(s, order);
      assert multiset(r[1..]) <= multiset(r);
      OneListPerOrder(r[1..], s[1..], order);
      assert r == [r[0]] + r[1..] && s == [s[0]] + s[1..];
    }
  }

  lemma ListedExactly(rows: seq<Row>, order: SortBy)
    ensures multiset(Listed(rows, order)) == multiset(rows) && |Listed(rows, order)| == |rows|
    ensures InOrderBy(Listed(rows, order), order)
  {
    OrderedTotal(order);
    SortSorted(rows, (a, b) => Ordered(order, a, b));
    SameMembers(Listed(rows, order), rows);
  }

  /** What the three orders mean for the list. */
  lemma OldestFirst(rows: seq<Row>, i: nat, j: nat)
    requires i < j < |Listed(rows, Oldest)|
    ensures var a, b := Listed(rows, Oldest)[i].item, Listed(rows, Oldest)[j].item;
            a.created < b.created || (a.created == b.created && (a.id == b.id || Precedes(a.id, b.id)))
  {
    ListedExactly(rows, Oldest);
    assert Ordered(Oldest, Listed(rows, Oldest)[i], Listed(rows, Oldest)[j]);
  }

  lemma NewestFirst(rows: seq<Row>, i: nat, j: nat)
    requires i < j < |Listed(rows, Newest)|
    ensures var a, b := Listed(rows, Newest)[i].item, Listed(rows, Newest)[j].item;
            a.created > b.created || (a.created == b.created && (a.id == b.id || Precedes(b.id, a.id)))
  {
    ListedExactly(rows, Newest);
    assert Ordered(Newest, Listed(rows, Newest)[i], Listed(rows, Newest)[j]);
  }

  /** `a` is strictly more severe than `b`. */
  predicate MoreSevere(a: Severity, b: Severity) {
    || (a == Blocking && b != Blocking)
    || (a == Error && (b == Warning || b == Other))
    || (a == Warning && b == Other)
  }

  lemma MostSevereFirst(rows: seq<Row>, i: nat, j: nat)
    requires i < j < |Listed(rows, MostSevere)|
    ensures var a, b := Listed(rows, MostSevere)[i], Listed(rows, MostSevere)[j];
            || MoreSevere(a.rule.severity, b.rule.severity)
            || (&& a.rule.severity == b.rule.severity
                && (|| a.item.created < b.item.created
                    || (a.item.created == b.item.created && (a.item.id == b.item.id || Precedes(a.item.id, b.item.id)))))
  {
    ListedExactly(rows, MostSevere);
    assert Ordered(MostSevere, Listed(rows, MostSevere)[i], Listed(rows, MostSevere)[j]);
  }

  /** What the filters mean: a row is listed exactly when the record and its rule belong to the
      organization and pass every filter that is set. */
  lemma SelectedExactly(items: seq<Item>, rules: map<nat, Rule>, organization: nat, f: Filter, contains: (string, string) -> bool, row: Row)
    ensures row in Selected(items, rules, organization, f, contains) <==>
            && row.item in items && row.item.ruleId in rules && row.rule == rules[row.item.ruleId]
            && row.item.organization == organization && row.rule.organization == organization
            && (f.status == None || f.status == Some(row.item.status))
            && (f.severity == None || f.severity == Some(row.rule.severity))
            && (f.needsAttention ==> row.item.status == "open" || row.item.status == "acknowledged")
            && (f.search == "" || contains(row.item.recordKey, f.search) || contains(row.rule.title, f.search)
                || contains(row.rule.ruleKey, f.search))
  {
    WhereExactly(Joined(items, rules), row => Selects(f, organization, contains, row));
  }

  /** Identifiers are primary keys. */
  ghost predicate DistinctIds(items: seq<Item>) {
    forall i, j :: 0 <= i < j < |items| ==> items[i].id != items[j].id
  }

  lemma SelectedIdentified(items: seq<Item>, rules: map<nat, Rule>, organization: nat, f: Filter, contains: (string, string) -> bool)
    requires DistinctIds(items)
    ensures IdentifiedBy(multiset(Selected(items, rules, organization, f, contains)))
  {
    var rows := Selected(items, rules, organization, f, contains);
    WhereExactly(Joined(items, rules), row => Selects(f, organization, contains, row));
    forall a: Row, b: Row | a in multiset(rows) && b in multiset(rows) && SameId(a, b) ensures a == b {
      assert a in rows && b in rows;
    }
  }

  /** Whatever list a query returns, if it holds the selected rows in the chosen order then
      it is this one, so pages fetched by separate queries are cut from one list. */
  lemma QueriesAgree(items: seq<Item>, rules: map<nat, Rule>, organization: nat, f: Filter,
                     contains: (string, string) -> bool, order: SortBy, answer: seq<Row>)
    requires DistinctIds(items) && InOrderBy(answer, order)
    requires multiset(answer) == multiset(Selected(items, rules, organization, f, contains))
    ensures answer == Listed(Selected(items, rules, organization, f, contains), order)
  {
    var rows := Selected(items, rules, organization, f, contains);
    SelectedIdentified(items, rules, organization, f, contains);
    ListedExactly(rows, order);
    OneListPerOrder(answer, Listed(rows, order), order);
  }

  // ----- Pages -----

  /** The start of the last page, or the requested offset if that comes first. */
  function Clamp(offset: nat, total: nat, limit: nat): nat
    requires limit >= 1
  {
    var last := (if total == 0 then 0 else total - 1) / limit * limit;
    if offset < last then offset else last
  }

  function Slice<T>(s: seq<T>, offset: nat, limit: nat): seq<T> {
    if offset >= |s| then [] else if offset + limit >= |s| then s[offset..] else s[offset..offset + limit]
  }

  datatype Page = Page(rows: seq<Row>, total: nat, limit: nat, offset: nat)

  function QueuePage(items: seq<Item>, rules: map<nat, Rule>, organization: nat, f: Filter,
                     contains: (string, string) -> bool, order: SortBy, limit: nat, offset: nat): Page
    requires limit >= 1
  {
    var rows := Selected(items, rules, organization, f, contains);
    var start := Clamp(offset, |rows|, limit);
    Page(Slice(Listed(rows, order), start, limit), |rows|, limit, start)
  }

  /** A page counts all selected rows and shows at most `limit` of them from its offset on; it is
      full unless the list ends first. */
  lemma PageExactly(items: seq<Item>, rules: map<nat, Rule>, organization: nat, f: Filter,
                    contains: (string, string) -> bool, order: SortBy, limit: nat, offset: nat)
    requires limit >= 1
    ensures var rows := Selected(items, rules, organization, f, contains);
            var page := QueuePage(items, rules, organization, f, contains, order, limit, offset);
            && page.total == |rows| && page.limit == limit && page.offset == Clamp(offset, |rows|, limit)
            && page.offset + |page.rows| == (if page.offset + limit <= |rows| then page.offset + limit else |rows|)
            && forall i :: 0 <= i < |page.rows| ==> page.offset + i < |Listed(rows, order)| && page.rows[i] == Listed(rows, order)[page.offset + i]
  {
    var rows := Selected(items, rules, organization, f, contains);
    ListedExactly(rows, order);
    ClampSound(offset, |rows|, limit);
  }

  lemma LastPage(total: nat, limit: nat)
    requires limit >= 1 && total >= 1
    ensures 0 <= (total - 1) / limit * limit <= total - 1 < (total - 1) / limit * limit + limit
  {
  }

  /** Clamping is idempotent, never moves forward, keeps exactly the offsets that lie at or
      before the last page start, moves every other one to that start, and yields an empty
      page only for an empty list. */
  lemma ClampSound(offset: nat, total: nat, limit: nat)
    requires limit >= 1
    ensures var c := Clamp(offset, total, limit);
            && c <= offset && Clamp(c, total, limit) == c
            && (c == offset <==> offset == 0 || (exists p: nat :: offset <= p * limit < total))
            && (c < total <==> total > 0)
            && (c != offset ==> (exists p: nat :: c == p * limit) && (if total == 0 then c == 0 else c < total <= c + limit))
  {
    if total == 0 {
      assert 0 == 0 * limit;
    } else {
      LastPage(total, limit);
      var last := (total - 1) / limit;
      if offset > last * limit && (exists p: nat :: offset <= p * limit < total) {
        var p: nat :| offset <= p * limit < total;
        PageStartsStop(total, limit, p);
      }
      assert last * limit < total;
    }
  }

  lemma PageStartsStop(total: nat, limit: nat, p: nat)
    requires limit >= 1 && p * limit < total
    ensures p * limit <= (total - 1) / limit * limit
  {
    var last := (total - 1) / limit;
    if p > last {
      Multiples(last + 1, p, limit);
      LastPage(total, limit);
    } else {
      Multiples(p, last, limit);
    }
  }

  lemma Multiples(p: nat, q: nat, limit: nat)
    requires p <= q
    ensures p * limit <= q * limit
  {
  }

  /** The pages at offsets 0, limit, 2 * limit, ... */
  function Pages<T>(s: seq<T>, limit: nat, n: nat): seq<seq<T>> {
    seq(n, i requires 0 <= i < n => Slice(s, i * limit, limit))
  }

  /** The first `k` elements, or all of them. */
  function Cut<T>(s: seq<T>, k: nat): seq<T> {
    if k <= |s| then s[..k] else s
  }

  lemma {:induction false} PagesUpTo<T>(s: seq<T>, limit: nat, n: nat)
    ensures Flat(Pages(s, limit, n)) == Cut(s, n * limit)
  {
    if n == 0 {
    } else {
      PagesUpTo(s, limit, n - 1);
      NextStart(n - 1, limit);
      PagesNext(s, limit, n - 1, (n - 1) * limit);
    }
  }

  lemma NextStart(n: nat, limit: nat)
    ensures (n + 1) * limit == n * limit + limit
  {
  }

  lemma PagesNext<T>(s: seq<T>, limit: nat, n: nat, from: nat)
    requires from == n * limit && Flat(Pages(s, limit, n)) == Cut(s, from)
    ensures Flat(Pages(s, limit, n + 1)) == Cut(s, from + limit)
  {
    var pages := Pages(s, limit, n + 1);
    assert pages[..n] == Pages(s, limit, n) && pages[n] == Slice(s, from, limit);
    PageExtends(s, from, limit);
  }

  lemma PageExtends<T>(s: seq<T>, from: nat, limit: nat)
    ensures Cut(s, from) + Slice(s, from, limit) == Cut(s, from + limit)
  {
  }

  function NumberOfPages(total: nat, limit: nat): nat
    requires limit >= 1
  {
    (total + limit - 1) / limit
  }

  lemma PagesCover<T>(s: seq<T>, limit: nat)
    requires limit >= 1
    ensures Flat(Pages(s, limit, NumberOfPages(|s|, limit))) == s
  {
    PagesUpTo(s, limit, NumberOfPages(|s|, limit));
    EnoughPages(|s|, limit);
    assert s[..|s|] == s;
  }

  /** The rows that successive requests at offsets 0, limit, 2 * limit, ... return. */
  function Walk(items: seq<Item>, rules: map<nat, Rule>, organization: nat, f: Filter,
                contains: (string, string) -> bool, order: SortBy, limit: nat, n: nat): seq<seq<Row>>
    requires limit >= 1
  {
    seq(n, p requires 0 <= p < n => QueuePage(items, rules, organization, f, contains, order, limit, p * limit).rows)
  }

  lemma WalkIsPages(items: seq<Item>, rules: map<nat, Rule>, organization: nat, f: Filter,
                    contains: (string, string) -> bool, order: SortBy, limit: nat)
    requires limit >= 1
    ensures var rows := Selected(items, rules, organization, f, contains);
            var n := NumberOfPages(|rows|, limit);
            Walk(items, rules, organization, f, contains, order, limit, n) == Pages(Listed(rows, order), limit, n)
  {
    var rows := Selected(items, rules, organization, f, contains);
    var n := NumberOfPages(|rows|, limit);
    var walk, pages := Walk(items, rules, organization, f, contains, order, limit, n), Pages(Listed(rows, order), limit, n);
    forall p | 0 <= p < n ensures walk[p] == pages[p] {
      WalkedOffsetKept(|rows|, limit, p);
    }
    assert walk == pages;
  }

  /** Walking the pages returns every selected record exactly once, in the chosen order. */
  lemma WalkVisitsAll(items: seq<Item>, rules: map<nat, Rule>, organization: nat, f: Filter,
                      contains: (string, string) -> bool, order: SortBy, limit: nat)
    requires limit >= 1
    ensures var rows := Selected(items, rules, organization, f, contains);
            var visited := Flat(Walk(items, rules, organization, f, contains, order, limit, NumberOfPages(|rows|, limit)));
            multiset(visited) == multiset(rows) && InOrderBy(visited, order)
  {
    var rows := Selected(items, rules, organization, f, contains);
    WalkIsPages(items, rules, organization, f, contains, order, limit);
    ListedExactly(rows, order);
    PagesCover(Listed(rows, order), limit);
  }

  lemma EnoughPages(total: nat, limit: nat)
    requires limit >= 1
    ensures NumberOfPages(total, limit) * limit >= total
  {
    LastPage(total + limit, limit);
  }

  lemma WalkedOffsetKept(total: nat, limit: nat, p: nat)
    requires limit >= 1 && p < NumberOfPages(total, limit)
    ensures p * limit < total && Clamp(p * limit, total, limit) == p * limit
  {
    var n := NumberOfPages(total, limit);
    assert total >= 1;
    LastPage(total + limit, limit);
    assert n * limit <= total + limit - 1;
    Multiples(p + 1, n, limit);
    assert (p + 1) * limit == p * limit + limit;
    PageStartsStop(total, limit, p);
  }

  // ----- Summary -----

  function CountWith(items: seq<Item>, organization: nat, status: string): nat {
    if items == [] then 0
    else (if items[0].organization == organization && items[0].status == status then 1 else 0) + CountWith(items[1..], organization, status)
  }

  /** `needs_attention` in the summary counts records without looking at their rules. */
  function NeedsAttention(items: seq<Item>, organization: nat): nat {
    CountWith(items, organization, "open") + CountWith(items, organization, "acknowledged")
  }

  const ATTENTION := Filter(None, None, true, "")

  predicate OwnRule(rules: map<nat, Rule>, item: Item) {
    item.ruleId in rules && rules[item.ruleId].organization == item.organization
  }

  predicate Waiting(item: Item, organization: nat) {
    item.organization == organization && Ledger.Attention(item.status)
  }

  lemma AttentionOfFirst(items: seq<Item>, rules: map<nat, Rule>, organization: nat, contains: (string, string) -> bool)
    requires items != []
    ensures var first := if Waiting(items[0], organization) && OwnRule(rules, items[0]) then 1 else 0;
            |Selected(items, rules, organization, ATTENTION, contains)| ==
              first + |Selected(items[1..], rules, organization, ATTENTION, contains)|
  {
    var test := row => Selects(ATTENTION, organization, contains, row);
    var rest := Joined(items[1..], rules);
    if items[0].ruleId in rules {
      var row := Row(items[0], rules[items[0].ruleId]);
      assert Joined(items, rules) == [row] + rest;
      assert ([row] + rest)[1..] == rest;
    } else {
      assert Joined(items, rules) == rest;
    }
  }

  lemma NeedsAttentionOfFirst(items: seq<Item>, organization: nat)
    requires items != []
    ensures NeedsAttention(items, organization) ==
            (if Waiting(items[0], organization) then 1 else 0) + NeedsAttention(items[1..], organization)
  {
  }

  ghost predicate WaitingOwn(items: seq<Item>, rules: map<nat, Rule>, organization: nat) {
    forall i :: 0 <= i < |items| && Waiting(items[i], organization) ==> OwnRule(rules, items[i])
  }

  lemma WaitingOwnOfFirst(items: seq<Item>, rules: map<nat, Rule>, organization: nat)
    requires items != []
    ensures WaitingOwn(items, rules, organization) <==>
            (Waiting(items[0], organization) ==> OwnRule(rules, items[0])) && WaitingOwn(items[1..], rules, organization)
  {
    var rest := items[1..];
    if WaitingOwn(rest, rules, organization) {
      assert forall i :: 1 <= i < |items| ==> items[i] == rest[i - 1];
    }
    if WaitingOwn(items, rules, organization) {
      assert forall i :: 0 <= i < |rest| ==> rest[i] == items[i + 1];
    }
  }

  /** The queue's count under the attention filter never exceeds the summary's figure, and
      they agree exactly when every waiting record of the organization failed a rule of
      that organization. */
  lemma {:induction false} SummaryAgreesIff(items: seq<Item>, rules: map<nat, Rule>, organization: nat, contains: (string, string) -> bool)
    ensures |Selected(items, rules, organization, ATTENTION, contains)| <= NeedsAttention(items, organization)
    ensures |Selected(items, rules, organization, ATTENTION, contains)| == NeedsAttention(items, organization) <==>
            WaitingOwn(items, rules, organization)
    decreases |items|
  {
    if items == [] {
    } else {
      SummaryAgreesIff(items[1..], rules, organization, contains);
      AttentionOfFirst(items, rules, organization, contains);
      NeedsAttentionOfFirst(items, organization);
      WaitingOwnOfFirst(items, rules, organization);
    }
  }

  // ----- Every reachable queue -----

  datatype Store = Store(items: seq<Item>, rules: map<nat, Rule>)

  /** Validation files the rules of its organization and quarantines failing records under
      them; reviewers change statuses. Identifiers of new rows come from the database. */
  datatype Act =
    | FileRule(rule: Rule, newRule: nat)
    | Quarantine(rule: Rule, newRule: nat, id: Key, recordKey: string, created: int)
    | Resolve(id: Key, status: string)

  predicate Fits(rule: Rule, wanted: Rule) {
    rule.organization == wanted.organization && rule.ruleKey == wanted.ruleKey
  }

  /** The rule of the organization with the wanted key, if it has been filed. */
  ghost function FindRule(rules: map<nat, Rule>, wanted: Rule): (found: Option<nat>)
    ensures found.Some? ==> found.value in rules && Fits(rules[found.value], wanted)
    ensures found.None? ==> forall id :: id in rules ==> !Fits(rules[id], wanted)
  {
    if exists id :: id in rules && Fits(rules[id], wanted) then
      var id :| id in rules && Fits(rules[id], wanted);
      Some(id)
    else None
  }

  ghost function WithRule(s: Store, wanted: Rule, newRule: nat): Store {
    if FindRule(s.rules, wanted).Some? then s else s.(rules := s.rules[newRule := wanted])
  }

  function WithStatus(items: seq<Item>, id: Key, status: string): (r: seq<Item>)
    ensures |r| == |items|
    ensures forall i :: 0 <= i < |items| ==> r[i] == if items[i].id == id then items[i].(status := status) else items[i]
  {
    seq(|items|, i requires 0 <= i < |items| => if items[i].id == id then items[i].(status := status) else items[i])
  }

  ghost function Perform(s: Store, act: Act): Store {
    match act
    case FileRule(rule, newRule) => WithRule(s, rule, newRule)
    case Resolve(id, status) => s.(items := WithStatus(s.items, id, status))
    case Quarantine(rule, newRule, id, recordKey, created) =>
      var t := WithRule(s, rule, newRule);
      var ruleId := FindRule(t.rules, rule);
      if ruleId.None? then t
      else t.(items := t.items + [Item(id, rule.organization, ruleId.value, "open", recordKey, created)])
  }

  /** The identifiers that the database gives are new. */
  ghost predicate Fresh(s: Store, act: Act) {
    && (act.FileRule? || act.Quarantine? ==> act.newRule !in s.rules)
    && (act.Quarantine? ==> forall i :: 0 <= i < |s.items| ==> s.items[i].id != act.id)
  }

  /** `s` is reached from an empty queue by some acts. */
  ghost predicate Reachable(acts: seq<Act>, s: Store) {
    if acts == [] then s == Store([], map[])
    else
      exists before {:trigger Fresh(before, acts[|acts| - 1])} ::
        Reachable(acts[..|acts| - 1], before) && Fresh(before, acts[|acts| - 1]) && s == Perform(before, acts[|acts| - 1])
  }

  ghost predicate OwnRules(s: Store) {
    forall i :: 0 <= i < |s.items| ==> OwnRule(s.rules, s.items[i])
  }

  lemma WithRuleKeeps(s: Store, wanted: Rule, newRule: nat)
    requires OwnRules(s) && newRule !in s.rules
    ensures OwnRules(WithRule(s, wanted, newRule)) && FindRule(WithRule(s, wanted, newRule).rules, wanted).Some?
  {
    var t := WithRule(s, wanted, newRule);
    assert FindRule(s.rules, wanted).None? ==> newRule in t.rules && Fits(t.rules[newRule], wanted);
  }

  lemma PerformKeeps(s: Store, act: Act)
    requires OwnRules(s) && DistinctIds(s.items) && Fresh(s, act)
    ensures OwnRules(Perform(s, act)) && DistinctIds(Perform(s, act).items)
  {
    match act
    case FileRule(rule, newRule) => WithRuleKeeps(s, rule, newRule);
    case Resolve(_, _) =>
    case Quarantine(rule, newRule, _, _, _) => WithRuleKeeps(s, rule, newRule);
  }

  lemma {:induction false} CountWithAppend(items: seq<Item>, item: Item, organization: nat, status: string)
    ensures CountWith(items + [item], organization, status) ==
            CountWith(items, organization, status) + if item.organization == organization && item.status == status then 1 else 0
  {
    if items == [] {
    } else {
      CountWithAppend(items[1..], item, organization, status);
      assert (items + [item])[1..] == items[1..] + [item];
    }
  }

  /** A quarantined record waits for attention: the summary of its organization grows by one. */
  lemma QuarantineRaisesAttention(s: Store, act: Act)
    requires OwnRules(s) && Fresh(s, act) && act.Quarantine?
    ensures NeedsAttention(Perform(s, act).items, act.rule.organization) == NeedsAttention(s.items, act.rule.organization) + 1
  {
    WithRuleKeeps(s, act.rule, act.newRule);
    var after := Perform(s, act).items;
    CountWithAppend(s.items, after[|s.items|], act.rule.organization, "open");
    CountWithAppend(s.items, after[|s.items|], act.rule.organization, "acknowledged");
  }

  /** In every reachable queue each record failed a rule of its own organization. */
  lemma {:induction false} ReachableOwnRules(acts: seq<Act>, s: Store)
    requires Reachable(acts, s)
    ensures OwnRules(s) && DistinctIds(s.items)
    decreases |acts|
  {
    if acts == [] {
    } else {
      var front, last := acts[..|acts| - 1], acts[|acts| - 1];
      var before :| Reachable(front, before) && Fresh(before, last) && s == Perform(before, last);
      ReachableOwnRules(front, before);
      PerformKeeps(before, last);
    }
  }

  /** So after any sequence of validations and resolutions, for every organization, the
      filtered count is the summary's `needs_attention`. */
  lemma ReachableCountsAgree(acts: seq<Act>, s: Store, organization: nat, contains: (string, string) -> bool)
    requires Reachable(acts, s)
    ensures |Selected(s.items, s.rules, organization, ATTENTION, contains)| == NeedsAttention(s.items, organization)
  {
    ReachableOwnRules(acts, s);
    SummaryAgreesIff(s.items, s.rules, organization, contains);
  }
}
