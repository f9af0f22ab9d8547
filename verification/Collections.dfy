/** Sorting, grouping and pairing of sequences, as the library calls `sorted`,
    `dict.setdefault(...).append`, `itertools.combinations` and `zip(s, s[1:])`
    compute them. */
module Collections {
  datatype Option<+T> = None | Some(value: T)

  // ----- Stable sorting -----

  ghost predicate TotalPreorder<T(!new)>(leq: (T, T) -> bool) {
    && (forall x, y :: leq(x, y) || leq(y, x))
    && (forall x, y, z :: leq(x, y) && leq(y, z) ==> leq(x, z))
  }

  ghost predicate Sorted<T>(s: seq<T>, leq: (T, T) -> bool) {
    forall i, j :: 0 <= i < j < |s| ==> leq(s[i], s[j])
  }

  function Insert<T>(x: T, s: seq<T>, leq: (T, T) -> bool): (r: seq<T>)
    ensures multiset(r) == multiset{x} + multiset(s)
  {
    if s == [] then [x]
    else if leq(x, s[0]) then [x] + s
    else
      assert s == [s[0]] + s[1..];
      [s[0]] + Insert(x, s[1..], leq)
  }

  function Sort<T>(s: seq<T>, leq: (T, T) -> bool): (r: seq<T>)
    ensures multiset(r) == multiset(s)
  {
    if s == [] then []
    else
      assert s == [s[0]] + s[1..];
      Insert(s[0], Sort(s[1..], leq), leq)
  }

  lemma SameMembers<T>(r: seq<T>, s: seq<T>)
    requires multiset(r) == multiset(s)
    ensures |r| == |s| && forall x :: x in r <==> x in s
  {
    assert |multiset(r)| == |r| && |multiset(s)| == |s|;
    forall x ensures x in r <==> x in s {
      assert x in multiset(r) <==> x in r;
      assert x in multiset(s) <==> x in s;
    }
  }

  lemma {:induction false} InsertSorted<T(!new)>(x: T, s: seq<T>, leq: (T, T) -> bool)
    requires TotalPreorder(leq) && Sorted(s, leq)
    ensures Sorted(Insert(x, s, leq), leq)
  {
    if s != [] && !leq(x, s[0]) {
      var rest := Insert(x, s[1..], leq);
      InsertSorted(x, s[1..], leq);
      forall y | y in rest ensures leq(s[0], y) {
        assert y in multiset(rest);
        if y != x {
          assert y in s[1..];
        }
      }
    }
  }

  lemma {:induction false} SortSorted<T(!new)>(s: seq<T>, leq: (T, T) -> bool)
    requires TotalPreorder(leq)
    ensures Sorted(Sort(s, leq), leq)
  {
    if s == [] {
    } else {
      SortSorted(s[1..], leq);
      InsertSorted(s[0], Sort(s[1..], leq), leq);
    }
  }

  function Where<T>(s: seq<T>, f: T -> bool): seq<T> {
    if s == [] then [] else (if f(s[0]) then [s[0]] else []) + Where(s[1..], f)
  }

  lemma {:induction false} WhereExactly<T>(s: seq<T>, f: T -> bool)
    ensures forall x :: x in Where(s, f) <==> x in s && f(x)
  {
    if s == [] {
    } else {
      WhereExactly(s[1..], f);
    }
  }

  /** The elements that `f` picks out all compare equal. */
  ghost predicate AllTied<T(!new)>(leq: (T, T) -> bool, f: T -> bool) {
    forall y, z {:trigger leq(y, z)} :: f(y) && f(z) ==> leq(y, z)
  }

  lemma {:induction false} InsertStable<T(!new)>(x: T, s: seq<T>, leq: (T, T) -> bool, f: T -> bool)
    requires AllTied(leq, f)
    ensures Where(Insert(x, s, leq), f) == (if f(x) then [x] else []) + Where(s, f)
  {
    if s == [] || leq(x, s[0]) {
      WhereFirst(x, s, f);
    } else {
      var rest := s[1..];
      assert s == [s[0]] + rest;
      InsertStable(x, rest, leq, f);
      WhereBehind(x, s[0], rest, Insert(x, rest, leq), f);
    }
  }

  lemma WhereBehind<T>(x: T, first: T, rest: seq<T>, inserted: seq<T>, f: T -> bool)
    requires !(f(x) && f(first)) && Where(inserted, f) == (if f(x) then [x] else []) + Where(rest, f)
    ensures Where([first] + inserted, f) == (if f(x) then [x] else []) + Where([first] + rest, f)
  {
    WhereFirst(first, inserted, f);
    WhereFirst(first, rest, f);
  }

  lemma WhereFirst<T>(x: T, s: seq<T>, f: T -> bool)
    ensures Where([x] + s, f) == (if f(x) then [x] else []) + Where(s, f)
  {
    assert ([x] + s)[1..] == s;
  }

  /** Sorting is stable: elements that compare equal keep their order. */
  lemma {:induction false} SortStable<T(!new)>(s: seq<T>, leq: (T, T) -> bool, f: T -> bool)
    requires AllTied(leq, f)
    ensures Where(Sort(s, leq), f) == Where(s, f)
  {
    if s == [] {
    } else {
      SortStable(s[1..], leq, f);
      InsertStable(s[0], Sort(s[1..], leq), leq, f);
    }
  }

  ghost predicate Distinct<T>(s: seq<T>) {
    forall i, j :: 0 <= i < j < |s| ==> s[i] != s[j]
  }

  lemma DistinctCounts<T>(s: seq<T>)
    ensures Distinct(s) <==> forall x :: multiset(s)[x] <= 1
  {
    if Distinct(s) {
      forall x ensures multiset(s)[x] <= 1 {
        CountAtMostOne(s, x);
      }
    } else {
      var i, j :| 0 <= i < j < |s| && s[i] == s[j];
      assert s == s[..i] + [s[i]] + s[i + 1..j] + [s[j]] + s[j + 1..];
      assert multiset(s)[s[i]] >= 2;
    }
  }

  lemma {:induction false} CountAtMostOne<T>(s: seq<T>, x: T)
    requires Distinct(s)
    ensures multiset(s)[x] <= 1
  {
    if s == [] {
    } else {
      assert s == [s[0]] + s[1..];
      CountAtMostOne(s[1..], x);
    }
  }

  lemma SortKeepsDistinct<T>(s: seq<T>, leq: (T, T) -> bool)
    requires Distinct(s)
    ensures Distinct(Sort(s, leq))
  {
    DistinctCounts(s);
    DistinctCounts(Sort(s, leq));
  }

  // ----- Grouping by tag -----

  /** The tags in order of first appearance. */
  function Seen<T(==)>(tags: seq<Option<T>>): seq<T> {
    if tags == [] then []
    else
      var before, last := Seen(tags[..|tags| - 1]), tags[|tags| - 1];
      if last.None? || last.value in before then before else before + [last.value]
  }

  /** The items whose tag is `tag`, in order. */
  function Members<I, T(==)>(items: seq<I>, tags: seq<Option<T>>, tag: T): seq<I>
    requires |items| == |tags|
    decreases |tags|
  {
    if tags == [] then []
    else
      var n := |tags| - 1;
      var before := Members(items[..n], tags[..n], tag);
      if tags[n] == Some(tag) then before + [items[n]] else before
  }

  lemma {:induction false} SeenExactly<T>(tags: seq<Option<T>>)
    ensures Distinct(Seen(tags))
    ensures forall t :: t in Seen(tags) <==> Some(t) in tags
  {
    if tags == [] {
    } else {
      var n := |tags| - 1;
      SeenExactly(tags[..n]);
      assert tags == tags[..n] + [tags[n]];
    }
  }

  /** `x` has appeared in `tags` before `y` first does. */
  ghost predicate AppearsBefore<T(!new)>(tags: seq<Option<T>>, x: T, y: T) {
    exists a :: 0 <= a < |tags| && tags[a] == Some(x) && FirstAfter(tags, a, y)
  }

  ghost predicate FirstAfter<T(!new)>(tags: seq<Option<T>>, a: int, y: T)
    requires a < |tags|
  {
    forall b :: 0 <= b <= a ==> tags[b] != Some(y)
  }

  /** Tags are listed in the order in which they first appear. */
  lemma {:induction false} SeenInOrder<T(!new)>(tags: seq<Option<T>>, i: nat, j: nat)
    requires i < j < |Seen(tags)|
    ensures AppearsBefore(tags, Seen(tags)[i], Seen(tags)[j])
  {
    var n := |tags| - 1;
    var front := Seen(tags[..n]);
    if j < |front| {
      SeenInOrder(tags[..n], i, j);
      var a :| 0 <= a < n && tags[..n][a] == Some(front[i]) && FirstAfter(tags[..n], a, front[j]);
      forall b | 0 <= b <= a ensures tags[b] != Some(front[j]) {
        assert tags[..n][b] == tags[b];
      }
      assert tags[a] == Some(front[i]) && FirstAfter(tags, a, front[j]);
    } else {
      SeenExactly(tags[..n]);
      var x, y := Seen(tags)[i], Seen(tags)[j];
      assert x in front && y !in front;
      var a :| 0 <= a < n && tags[..n][a] == Some(x);
      forall b | 0 <= b <= a ensures tags[b] != Some(y) {
        assert tags[..n][b] == tags[b] && tags[..n][b] in tags[..n];
      }
      assert tags[a] == Some(x) && FirstAfter(tags, a, y);
    }
  }

  lemma {:induction false} MembersExactly<I, T>(items: seq<I>, tags: seq<Option<T>>, tag: T)
    requires |items| == |tags|
    ensures forall x :: x in Members(items, tags, tag) <==>
                        exists i :: 0 <= i < |tags| && tags[i] == Some(tag) && items[i] == x
    decreases |tags|
  {
    if tags == [] {
    } else {
      var n := |tags| - 1;
      MembersExactly(items[..n], tags[..n], tag);
      forall x ensures x in Members(items, tags, tag) <==>
                       exists i :: 0 <= i < |tags| && tags[i] == Some(tag) && items[i] == x
      {
        if x in Members(items[..n], tags[..n], tag) {
          var i :| 0 <= i < n && tags[..n][i] == Some(tag) && items[..n][i] == x;
          assert tags[i] == Some(tag) && items[i] == x;
        }
        if i :| 0 <= i < |tags| && tags[i] == Some(tag) && items[i] == x {
          if i < n {
            assert tags[..n][i] == Some(tag) && items[..n][i] == x;
          }
        }
      }
    }
  }

  lemma {:induction false} NotAMember<I, T>(items: seq<I>, tags: seq<Option<T>>, tag: T, x: I)
    requires |items| == |tags| && x !in items
    ensures x !in Members(items, tags, tag)
    decreases |tags|
  {
    if tags == [] {
    } else {
      NotAMember(items[..|tags| - 1], tags[..|tags| - 1], tag, x);
    }
  }

  lemma {:induction false} MembersDistinct<I, T>(items: seq<I>, tags: seq<Option<T>>, tag: T)
    requires |items| == |tags| && Distinct(items)
    ensures Distinct(Members(items, tags, tag))
    decreases |tags|
  {
    if tags == [] {
    } else {
      var n := |tags| - 1;
      MembersDistinct(items[..n], tags[..n], tag);
      assert items[n] !in items[..n];
      NotAMember(items[..n], tags[..n], tag, items[n]);
    }
  }

  /** The grouping loop: a dictionary from tag to members, and its insertion order. */
  method Group<I, T(==)>(items: seq<I>, tags: seq<Option<T>>) returns (order: seq<T>, groups: map<T, seq<I>>)
    requires |items| == |tags|
    ensures order == Seen(tags)
    ensures forall t :: t in groups <==> t in order
    ensures forall t :: t in groups ==> groups[t] == Members(items, tags, t)
  {
    order, groups := [], map[];
    for n := 0 to |tags|
      invariant order == Seen(tags[..n])
      invariant forall t :: t in groups <==> t in order
      invariant forall t :: t in groups ==> groups[t] == Members(items[..n], tags[..n], t)
      invariant forall t :: t !in groups ==> Members(items[..n], tags[..n], t) == []
    {
      assert tags[..n + 1][..n] == tags[..n] && items[..n + 1][..n] == items[..n];
      if tags[n].Some? {
        var tag := tags[n].value;
        if tag in groups {
          groups := groups[tag := groups[tag] + [items[n]]];
        } else {
          order, groups := order + [tag], groups[tag := [items[n]]];
        }
      }
    }
    assert tags[..|tags|] == tags && items[..|items|] == items;
  }

  // ----- Concatenation -----

  lemma TakeNext<T>(front: seq<T>, s: seq<T>, n: nat)
    requires n < |s|
    ensures front + s[..n] + [s[n]] == front + s[..n + 1]
  {
  }

  function Flat<T>(blocks: seq<seq<T>>): seq<T> {
    if blocks == [] then [] else Flat(blocks[..|blocks| - 1]) + blocks[|blocks| - 1]
  }

  lemma FlatNext<T>(blocks: seq<seq<T>>, n: nat)
    requires n < |blocks|
    ensures Flat(blocks[..n + 1]) == Flat(blocks[..n]) + blocks[n]
    ensures forall front :: front + Flat(blocks[..n]) + blocks[n] == front + Flat(blocks[..n + 1])
  {
    assert blocks[..n + 1][..n] == blocks[..n];
  }

  lemma {:induction false} InFlat<T>(blocks: seq<seq<T>>, x: T)
    ensures x in Flat(blocks) <==> exists i :: 0 <= i < |blocks| && x in blocks[i]
  {
    if blocks == [] {
    } else {
      var n := |blocks| - 1;
      InFlat(blocks[..n], x);
      if x in Flat(blocks[..n]) {
        var i :| 0 <= i < n && x in blocks[..n][i];
        assert x in blocks[i];
      }
      if i :| 0 <= i < |blocks| && x in blocks[i] {
        if i < n {
          assert x in blocks[..n][i];
        }
      }
    }
  }

  // ----- Pairs -----

  function Adjacent<I>(s: seq<I>): seq<(I, I)> {
    if |s| < 2 then [] else [(s[0], s[1])] + Adjacent(s[1..])
  }

  function PairedWith<I>(x: I, s: seq<I>): seq<(I, I)> {
    seq(|s|, i requires 0 <= i < |s| => (x, s[i]))
  }

  function Combinations<I>(s: seq<I>): seq<(I, I)> {
    if |s| < 2 then [] else PairedWith(s[0], s[1..]) + Combinations(s[1..])
  }

  lemma {:induction false} AdjacentExactly<I>(s: seq<I>)
    ensures |Adjacent(s)| == if s == [] then 0 else |s| - 1
    ensures forall i :: 0 <= i < |s| - 1 ==> Adjacent(s)[i] == (s[i], s[i + 1])
  {
    if |s| >= 2 {
      AdjacentExactly(s[1..]);
    }
  }

  ghost predicate InOrder<I>(s: seq<I>, x: I, y: I) {
    exists i, j :: 0 <= i < j < |s| && s[i] == x && s[j] == y
  }

  lemma {:induction false} CombinationsExactly<I>(s: seq<I>)
    ensures forall x, y :: (x, y) in Combinations(s) <==> InOrder(s, x, y)
  {
    if |s| >= 2 {
      CombinationsExactly(s[1..]);
      forall x, y ensures (x, y) in Combinations(s) <==> InOrder(s, x, y) {
        if (x, y) in PairedWith(s[0], s[1..]) {
          var i :| 0 <= i < |s| - 1 && PairedWith(s[0], s[1..])[i] == (x, y);
          assert s[0] == x && s[i + 1] == y;
        }
        if InOrder(s[1..], x, y) {
          var i, j :| 0 <= i < j < |s[1..]| && s[1..][i] == x && s[1..][j] == y;
          assert s[i + 1] == x && s[j + 1] == y;
        }
        if InOrder(s, x, y) {
          var i, j :| 0 <= i < j < |s| && s[i] == x && s[j] == y;
          if i == 0 {
            assert PairedWith(s[0], s[1..])[j - 1] == (x, y);
          } else {
            assert s[1..][i - 1] == x && s[1..][j - 1] == y;
          }
        }
      }
    }
  }
}
