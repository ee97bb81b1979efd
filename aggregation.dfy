/** Counting per key, the pattern the report pages write as a `Record<string, …>` filled
    inside a `forEach` (`if (!acc[key]) acc[key] = {…, count: 0}; acc[key].count++`),
    then read back with `Object.values` in the order the keys were first inserted.

    `Tally(ks)` is the reference: one group per distinct key, in order of first
    occurrence, holding the index of the key's first row and its number of
    occurrences. `Counter` is the dictionary the loops mutate. */
module Aggregation {
  import opened Common

  /** Keys of a JavaScript object are strings. */
  type Key = string

  /** How many times `k` occurs in `ks`. */
  function Occurrences(ks: seq<Key>, k: Key): (n: nat)
    ensures n <= |ks|
    ensures n == 0 <==> k !in ks
  {
    if |ks| == 0 then 0
    else
      assert ks == ks[..|ks| - 1] + [ks[|ks| - 1]];
      Occurrences(ks[..|ks| - 1], k) + (if ks[|ks| - 1] == k then 1 else 0)
  }

  /** Counting from the front: a key ahead of `rest` adds one exactly when it is `k`. */
  lemma {:induction false} OccurrencesCons(x: Key, rest: seq<Key>, k: Key)
    ensures Occurrences([x] + rest, k) == (if x == k then 1 else 0) + Occurrences(rest, k)
    decreases |rest|
  {
    var s := [x] + rest;
    if |rest| == 0 {
      assert s[..|s| - 1] == [];
    } else {
      var m := |rest| - 1;
      assert s[..|s| - 1] == [x] + rest[..m];
      assert s[|s| - 1] == rest[m];
      OccurrencesCons(x, rest[..m], k);
    }
  }

  /** The distinct keys of `ks` in order of first occurrence (`Object.keys` order). */
  function Distinct(ks: seq<Key>): (r: seq<Key>)
    ensures forall x :: x in r <==> x in ks
    ensures NoDuplicates(r)
  {
    if |ks| == 0 then []
    else
      assert ks == ks[..|ks| - 1] + [ks[|ks| - 1]];
      var prev := Distinct(ks[..|ks| - 1]);
      if ks[|ks| - 1] in ks[..|ks| - 1] then prev else prev + [ks[|ks| - 1]]
  }

  /** The index of the first occurrence of `k`. */
  function FirstIndex(ks: seq<Key>, k: Key): (i: nat)
    requires k in ks
    ensures i < |ks| && ks[i] == k
    ensures forall j :: 0 <= j < i ==> ks[j] != k
  {
    var last := |ks| - 1;
    if k in ks[..last] then FirstIndex(ks[..last], k) else last
  }

  /** One entry of a counting dictionary: its key, the index of the row that created it
      and how many rows had that key. */
  datatype Group = Group(key: Key, first: nat, count: nat)

  /** The reference tally of `ks`. */
  function Tally(ks: seq<Key>): seq<Group> {
    var d := Distinct(ks);
    seq(|d|, j requires 0 <= j < |d| => Group(d[j], FirstIndex(ks, d[j]), Occurrences(ks, d[j])))
  }

  /** The keys of a list of groups. */
  function GroupKeys(g: seq<Group>): (r: seq<Key>)
    ensures |r| == |g| && forall j :: 0 <= j < |g| ==> r[j] == g[j].key
  {
    seq(|g|, j requires 0 <= j < |g| => g[j].key)
  }

  /** The sum of the counts. */
  function Total(g: seq<Group>): nat {
    if |g| == 0 then 0 else Total(g[..|g| - 1]) + g[|g| - 1].count
  }

  /** What the tally promises: one group per distinct key (no key twice, every key of the
      input present and nothing else), each with the exact number of its occurrences
      and the index of its first row, listed in order of first occurrence. */
  lemma TallyFacts(ks: seq<Key>)
    ensures NoDuplicates(GroupKeys(Tally(ks)))
    ensures forall k :: k in GroupKeys(Tally(ks)) <==> k in ks
    ensures forall j :: 0 <= j < |Tally(ks)| ==>
      var g := Tally(ks)[j];
      g.count == Occurrences(ks, g.key) && g.count >= 1
      && g.first < |ks| && ks[g.first] == g.key && (forall i :: 0 <= i < g.first ==> ks[i] != g.key)
    ensures forall j, j' :: 0 <= j < j' < |Tally(ks)| ==> Tally(ks)[j].first < Tally(ks)[j'].first
  {
    var t := Tally(ks);
    assert GroupKeys(t) == Distinct(ks);
    forall j, j' | 0 <= j < j' < |t| ensures t[j].first < t[j'].first {
      FirstOccurrenceOrder(ks, j, j');
    }
  }

  /** Keys listed earlier by `Distinct` occur first earlier. */
  lemma {:induction false} FirstOccurrenceOrder(ks: seq<Key>, j: int, j': int)
    requires 0 <= j < j' < |Distinct(ks)|
    ensures FirstIndex(ks, Distinct(ks)[j]) < FirstIndex(ks, Distinct(ks)[j'])
  {
    var last := |ks| - 1;
    var init := ks[..last];
    var d := Distinct(ks);
    var a, b := d[j], d[j'];
    if ks[last] in init {
      assert d == Distinct(init);
      FirstOccurrenceOrder(init, j, j');
      FirstIndexPrefix(ks, a);
      FirstIndexPrefix(ks, b);
    } else {
      assert d == Distinct(init) + [ks[last]];
      if j' < |d| - 1 {
        assert Distinct(init)[j] == a && Distinct(init)[j'] == b;
        FirstOccurrenceOrder(init, j, j');
        FirstIndexPrefix(ks, a);
        FirstIndexPrefix(ks, b);
      } else {
        assert b == ks[last] && a in Distinct(init);
        FirstIndexPrefix(ks, a);
      }
    }
  }

  lemma FirstIndexPrefix(ks: seq<Key>, k: Key)
    requires |ks| > 0 && k in ks[..|ks| - 1]
    ensures FirstIndex(ks, k) == FirstIndex(ks[..|ks| - 1], k)
  {
  }

  /** One more row with a key already present adds one to that key's group. */
  lemma TallyStepOld(ks: seq<Key>, x: Key, p: int)
    requires 0 <= p < |Tally(ks)| && Tally(ks)[p].key == x
    ensures Tally(ks + [x]) == Tally(ks)[p := Tally(ks)[p].(count := Tally(ks)[p].count + 1)]
  {
    var ks' := ks + [x];
    assert ks'[..|ks'| - 1] == ks;
    var d := Distinct(ks);
    assert x in ks by { assert d[p] == x; }
    assert Distinct(ks') == d;
    forall j | 0 <= j < |d|
      ensures FirstIndex(ks', d[j]) == FirstIndex(ks, d[j])
      ensures Occurrences(ks', d[j]) == Occurrences(ks, d[j]) + (if j == p then 1 else 0)
    {
      FirstIndexPrefix(ks', d[j]);
      if j != p {
        assert d[j] != d[p];
      }
    }
  }

  /** One more row with a new key appends a group of one. */
  lemma TallyStepNew(ks: seq<Key>, x: Key)
    requires x !in ks
    ensures Tally(ks + [x]) == Tally(ks) + [Group(x, |ks|, 1)]
  {
    var ks' := ks + [x];
    assert ks'[..|ks'| - 1] == ks;
    var d := Distinct(ks);
    assert Distinct(ks') == d + [x];
    forall j | 0 <= j < |d|
      ensures FirstIndex(ks', d[j]) == FirstIndex(ks, d[j])
      ensures Occurrences(ks', d[j]) == Occurrences(ks, d[j])
    {
      FirstIndexPrefix(ks', d[j]);
    }
  }

  lemma {:induction false} TotalBump(g: seq<Group>, p: int)
    requires 0 <= p < |g|
    ensures Total(g[p := g[p].(count := g[p].count + 1)]) == Total(g) + 1
    decreases |g|
  {
    var g' := g[p := g[p].(count := g[p].count + 1)];
    var last := |g| - 1;
    if p < last {
      assert g'[..last] == g[..last][p := g[p].(count := g[p].count + 1)];
      TotalBump(g[..last], p);
    } else {
      assert g'[..last] == g[..last];
    }
  }

  /** The counts add up to the number of rows. */
  lemma {:induction false} TallyTotal(ks: seq<Key>)
    ensures Total(Tally(ks)) == |ks|
    decreases |ks|
  {
    if |ks| > 0 {
      var init, x := ks[..|ks| - 1], ks[|ks| - 1];
      assert ks == init + [x];
      TallyTotal(init);
      TallyFacts(init);
      if x in init {
        var p :| 0 <= p < |Tally(init)| && GroupKeys(Tally(init))[p] == x;
        TallyStepOld(init, x, p);
        TotalBump(Tally(init), p);
      } else {
        TallyStepNew(init, x);
        var t := Tally(init) + [Group(x, |init|, 1)];
        assert t[..|t| - 1] == Tally(init);
      }
    }
  }

  /** The counter's invariant, over the values of its fields. */
  ghost predicate CounterInv(groups: seq<Group>, slot: map<Key, nat>, size: nat, seen: seq<Key>) {
    groups == Tally(seen) && size == |seen|
    && (forall k :: k in slot <==> k in seen)
    && (forall k :: k in slot ==> slot[k] < |groups| && groups[slot[k]].key == k)
  }

  /** A key with an entry: its count goes up by one. */
  lemma CounterStepOld(groups: seq<Group>, slot: map<Key, nat>, size: nat, seen: seq<Key>, k: Key)
    requires CounterInv(groups, slot, size, seen) && k in slot
    ensures CounterInv(groups[slot[k] := groups[slot[k]].(count := groups[slot[k]].count + 1)], slot, size + 1, seen + [k])
  {
    var p := slot[k];
    TallyStepOld(seen, k, p);
  }

  /** A new key: an entry of one, at the end. */
  lemma CounterStepNew(groups: seq<Group>, slot: map<Key, nat>, size: nat, seen: seq<Key>, k: Key)
    requires CounterInv(groups, slot, size, seen) && k !in slot
    ensures CounterInv(groups + [Group(k, size, 1)], slot[k := |groups|], size + 1, seen + [k])
  {
    TallyStepNew(seen, k);
  }

  /** The counting dictionary a `forEach` fills: `groups` is `Object.values(acc)`, `slot`
      finds a key's entry, `seen` is the keys added so far. */
  class Counter {
    var groups: seq<Group>
    var slot: map<Key, nat>
    var size: nat
    ghost var seen: seq<Key>

    ghost predicate Valid()
      reads this
    {
      CounterInv(groups, slot, size, seen)
    }

    /** `{}` */
    constructor()
      ensures Valid() && seen == []
    {
      groups, slot, size, seen := [], map[], 0, [];
    }

    /** `if (!acc[k]) acc[k] = { …, count: 0 }; acc[k].count++` */
    method Add(k: Key)
      requires Valid()
      modifies this
      ensures Valid() && seen == old(seen) + [k]
    {
      if k in slot {
        var p := slot[k];
        var groups' := groups[p := groups[p].(count := groups[p].count + 1)];
        CounterStepOld(groups, slot, size, seen, k);
        groups, size, seen := groups', size + 1, seen + [k];
      } else {
        var groups', slot' := groups + [Group(k, size, 1)], slot[k := |groups|];
        CounterStepNew(groups, slot, size, seen, k);
        groups, slot, size, seen := groups', slot', size + 1, seen + [k];
      }
    }
  }

  /** Makes a counter hold the tally of `ks`, one `Add` per row. */
  method CountAll(ks: seq<Key>) returns (groups: seq<Group>)
    ensures groups == Tally(ks)
  {
    var c := new Counter();
    var i := 0;
    while i < |ks|
      invariant 0 <= i <= |ks|
      invariant c.Valid() && c.seen == ks[..i]
    {
      assert ks[..i + 1] == ks[..i] + [ks[i]];
      c.Add(ks[i]);
      i := i + 1;
    }
    assert ks[..|ks|] == ks;
    groups := c.groups;
  }

  // ------------------------------------------------------------ counts per declared value

  /** `Σ_j values.filter(v => v === labels[j]).length`: the counts a page computes, one
      `filter(...).length` per declared value. */
  function LabelTotal(values: seq<Key>, labels: seq<Key>): nat {
    if |labels| == 0 then 0
    else LabelTotal(values, labels[..|labels| - 1]) + Occurrences(values, labels[|labels| - 1])
  }

  /** Three labels: the sum of their three counts. */
  lemma LabelTotalThree(values: seq<Key>, labels: seq<Key>)
    requires |labels| == 3
    ensures LabelTotal(values, labels)
         == Occurrences(values, labels[0]) + Occurrences(values, labels[1]) + Occurrences(values, labels[2])
  {
    var l2 := labels[..2];
    var l1 := l2[..1];
    assert l1[..0] == [] && l1[0] == labels[0] && l2[1] == labels[1];
    assert LabelTotal(values, l1) == Occurrences(values, labels[0]);
    assert LabelTotal(values, l2) == LabelTotal(values, l1) + Occurrences(values, labels[1]);
    assert LabelTotal(values, labels) == LabelTotal(values, l2) + Occurrences(values, labels[2]);
  }

  /** Four labels: the sum of their four counts. */
  lemma LabelTotalFour(values: seq<Key>, labels: seq<Key>)
    requires |labels| == 4
    ensures LabelTotal(values, labels)
         == Occurrences(values, labels[0]) + Occurrences(values, labels[1])
            + Occurrences(values, labels[2]) + Occurrences(values, labels[3])
  {
    LabelTotalThree(values, labels[..3]);
  }

  /** One more value adds its number of occurrences among the labels. */
  lemma {:induction false} LabelTotalStep(values: seq<Key>, x: Key, labels: seq<Key>)
    ensures LabelTotal(values + [x], labels) == LabelTotal(values, labels) + Occurrences(labels, x)
    decreases |labels|
  {
    if |labels| > 0 {
      var last := |labels| - 1;
      var vs := values + [x];
      assert vs[..|vs| - 1] == values;
      LabelTotalStep(values, x, labels[..last]);
      assert labels[..last + 1] == labels;
    }
  }

  lemma {:induction false} OccurrencesAtMostOne(labels: seq<Key>, x: Key)
    requires NoDuplicates(labels)
    ensures Occurrences(labels, x) <= 1
    decreases |labels|
  {
    if |labels| > 0 {
      var init := labels[..|labels| - 1];
      OccurrencesAtMostOne(init, x);
    }
  }

  /** With distinct declared values, the per-value counts add up to at most the number of
      rows, and to exactly that number when every row holds a declared value. */
  lemma {:induction false} LabelTotalBound(values: seq<Key>, labels: seq<Key>)
    requires NoDuplicates(labels)
    ensures LabelTotal(values, labels) <= |values|
    ensures LabelTotal(values, labels) == |values| <==> forall v :: v in values ==> v in labels
    decreases |values|
  {
    if |values| == 0 {
      LabelTotalEmpty(labels);
    } else {
      var init, x := values[..|values| - 1], values[|values| - 1];
      assert values == init + [x];
      LabelTotalBound(init, labels);
      LabelTotalStep(init, x, labels);
      OccurrencesAtMostOne(labels, x);
      if forall v :: v in values ==> v in labels {
        assert forall v :: v in init ==> v in labels;
      }
    }
  }

  lemma {:induction false} LabelTotalEmpty(labels: seq<Key>)
    ensures LabelTotal([], labels) == 0
    decreases |labels|
  {
    if |labels| > 0 {
      LabelTotalEmpty(labels[..|labels| - 1]);
    }
  }

  // ------------------------------------------------------------ sorting by count

  /** Non-increasing counts. */
  predicate SortedByCountDesc(g: seq<Group>) {
    forall i, j :: 0 <= i < j < |g| ==> g[i].count >= g[j].count
  }

  /** No key is listed twice. */
  predicate DistinctKeys(g: seq<Group>) {
    forall i, j :: 0 <= i < j < |g| ==> g[i].key != g[j].key
  }

  function InsertByCount(x: Group, s: seq<Group>): (r: seq<Group>)
    requires SortedByCountDesc(s)
    ensures SortedByCountDesc(r)
    ensures multiset(r) == multiset(s) + multiset{x}
    ensures |r| == |s| + 1
    ensures r[0] == x || (|s| > 0 && r[0] == s[0])
  {
    if |s| == 0 then [x]
    else if x.count >= s[0].count then [x] + s
    else
      assert s == [s[0]] + s[1..];
      [s[0]] + InsertByCount(x, s[1..])
  }

  /** `.sort((a, b) => b.count - a.count)`: the same groups, by non-increasing count. */
  function SortByCountDesc(g: seq<Group>): (r: seq<Group>)
    ensures SortedByCountDesc(r)
    ensures multiset(r) == multiset(g)
    ensures |r| == |g|
  {
    if |g| == 0 then []
    else
      assert g == [g[0]] + g[1..];
      InsertByCount(g[0], SortByCountDesc(g[1..]))
  }

  /** `g => g.count === v` */
  function HasCount(v: nat): Group -> bool {
    (g: Group) => g.count == v
  }

  /** Inserting `x` keeps it ahead of the groups of its count, and keeps the others in
      their order. */
  lemma {:induction false} InsertIsStable(x: Group, s: seq<Group>, v: nat)
    requires SortedByCountDesc(s)
    ensures Filter(InsertByCount(x, s), HasCount(v)) == Filter([x] + s, HasCount(v))
    decreases |s|
  {
    if |s| > 0 && x.count < s[0].count {
      var p := HasCount(v);
      var rest := InsertByCount(x, s[1..]);
      InsertIsStable(x, s[1..], v);
      assert ([s[0]] + rest)[0] == s[0] && ([s[0]] + rest)[1..] == rest;
      assert ([x] + s)[0] == x && ([x] + s)[1..] == s;
      assert ([x] + s[1..])[0] == x && ([x] + s[1..])[1..] == s[1..];
      assert s == [s[0]] + s[1..];
    }
  }

  /** The sort is stable, as `Array.prototype.sort` is: the groups of any one count come out
      in the order they went in. */
  lemma {:induction false} SortIsStable(g: seq<Group>, v: nat)
    ensures Filter(SortByCountDesc(g), HasCount(v)) == Filter(g, HasCount(v))
    decreases |g|
  {
    if |g| > 0 {
      var sorted := SortByCountDesc(g[1..]);
      SortIsStable(g[1..], v);
      InsertIsStable(g[0], sorted, v);
      assert ([g[0]] + sorted)[0] == g[0] && ([g[0]] + sorted)[1..] == sorted;
    }
  }

  lemma MultisetMembers(a: seq<Group>, b: seq<Group>)
    requires multiset(a) == multiset(b)
    ensures forall y :: y in a <==> y in b
  {
    forall y ensures y in a <==> y in b {
      assert y in a <==> y in multiset(a);
      assert y in b <==> y in multiset(b);
    }
  }

  lemma {:induction false} InsertKeepsDistinctKeys(x: Group, s: seq<Group>)
    requires SortedByCountDesc(s) && DistinctKeys(s)
    requires forall y :: y in s ==> y.key != x.key
    ensures DistinctKeys(InsertByCount(x, s))
    decreases |s|
  {
    if |s| > 0 && x.count < s[0].count {
      var tail := s[1..];
      InsertKeepsDistinctKeys(x, tail);
      var r := InsertByCount(x, tail);
      MultisetMembers(r, tail + [x]);
      forall y | y in r ensures y.key != s[0].key {
        if y != x {
          assert y in tail;
          var k :| 0 <= k < |tail| && tail[k] == y;
          assert s[k + 1] == y;
        }
      }
      ConsDistinctKeys(s[0], r);
      assert InsertByCount(x, s) == [s[0]] + r;
    } else if |s| > 0 {
      ConsDistinctKeys(x, s);
    }
  }

  /** A group whose key is new can lead a list of distinct keys. */
  lemma ConsDistinctKeys(a: Group, r: seq<Group>)
    requires DistinctKeys(r)
    requires forall y :: y in r ==> y.key != a.key
    ensures DistinctKeys([a] + r)
  {
    var full := [a] + r;
    forall i, j | 0 <= i < j < |full| ensures full[i].key != full[j].key {
      assert full[j] == r[j - 1] && full[j] in r;
      if i > 0 {
        assert full[i] == r[i - 1];
      }
    }
  }

  /** Sorting a list whose keys are distinct keeps them distinct, and keeps the groups. */
  lemma {:induction false} SortKeepsDistinctKeys(g: seq<Group>)
    requires DistinctKeys(g)
    ensures DistinctKeys(SortByCountDesc(g))
    ensures forall y :: y in SortByCountDesc(g) <==> y in g
    decreases |g|
  {
    MultisetMembers(SortByCountDesc(g), g);
    if |g| > 0 {
      SortKeepsDistinctKeys(g[1..]);
      InsertKeepsDistinctKeys(g[0], SortByCountDesc(g[1..]));
    }
  }

  /** Sorting keeps the total. */
  lemma SortKeepsTotal(g: seq<Group>)
    ensures Total(SortByCountDesc(g)) == Total(g)
  {
    TotalOfMultiset(SortByCountDesc(g), g);
  }

  /** The total depends only on the multiset of groups. */
  lemma {:induction false} TotalOfMultiset(a: seq<Group>, b: seq<Group>)
    requires multiset(a) == multiset(b)
    ensures Total(a) == Total(b)
    decreases |a|
  {
    if |a| > 0 {
      var x := a[|a| - 1];
      assert a == a[..|a| - 1] + [x];
      assert x in multiset(b);
      var k :| 0 <= k < |b| && b[k] == x;
      var b' := b[..k] + b[k + 1..];
      assert b == b[..k] + [x] + b[k + 1..];
      assert multiset(a) == multiset(a[..|a| - 1]) + multiset{x};
      assert multiset(b) == multiset(b[..k]) + multiset{x} + multiset(b[k + 1..]);
      assert multiset(b') == multiset(b[..k]) + multiset(b[k + 1..]);
      assert multiset(a[..|a| - 1]) == multiset(a) - multiset{x};
      assert multiset(b') == multiset(b) - multiset{x};
      TotalOfMultiset(a[..|a| - 1], b');
      TotalRemove(b, k);
    } else {
      assert |b| == |multiset(b)|;
    }
  }

  lemma {:induction false} TotalRemove(b: seq<Group>, k: int)
    requires 0 <= k < |b|
    ensures Total(b) == Total(b[..k] + b[k + 1..]) + b[k].count
    decreases |b|
  {
    var last := |b| - 1;
    if k < last {
      var b' := b[..k] + b[k + 1..];
      assert b'[..|b'| - 1] == b[..last][..k] + b[..last][k + 1..];
      assert b'[|b'| - 1] == b[last];
      TotalRemove(b[..last], k);
    } else {
      assert b[..k] + b[k + 1..] == b[..last];
    }
  }

  // ------------------------------------------------------------ percentages

  /** `Math.round(count / total * 100)`, with the `total > 0 ? … : 0` guard, in integers:
      halves round up, as `Math.round` does for non-negative numbers. */
  function RoundPercent(count: nat, total: nat): (r: nat)
    ensures total == 0 ==> r == 0
  {
    if total == 0 then 0 else (200 * count + total) / (2 * total)
  }

  lemma MulMono(m: nat, a: int, b: int)
    requires a <= b
    ensures m * a <= m * b
  {
    assert m * b - m * a == m * (b - a);
  }

  lemma DivBounds(n: nat, m: nat)
    requires m > 0
    ensures m * (n / m) <= n < m * (n / m + 1)
  {
    assert n == m * (n / m) + n % m;
    assert m * (n / m + 1) == m * (n / m) + m;
  }

  lemma DivUnique(n: nat, m: nat, q: int)
    requires m > 0 && m * q <= n < m * (q + 1)
    ensures n / m == q
  {
    DivBounds(n, m);
    var q' := n / m;
    if q' < q {
      MulMono(m, q' + 1, q);
    } else if q' > q {
      MulMono(m, q + 1, q');
    }
  }

  /** The result is the integer nearest to `100 * count / total`, halves rounding up; it is
      0 for a zero count, 100 for the whole, and at most 100 for a part of the total. */
  lemma RoundPercentFacts(count: nat, total: nat)
    requires total > 0
    ensures var r := RoundPercent(count, total);
      2 * total * r <= 200 * count + total < 2 * total * (r + 1)
    ensures count == 0 ==> RoundPercent(count, total) == 0
    ensures count == total ==> RoundPercent(count, total) == 100
    ensures count <= total ==> RoundPercent(count, total) <= 100
  {
    var m := 2 * total;
    var n := 200 * count + total;
    var r := RoundPercent(count, total);
    assert r == n / m;
    DivBounds(n, m);
    if count == 0 {
      DivUnique(n, m, 0);
    }
    if count == total {
      DivUnique(n, m, 100);
    }
    if count <= total && r > 100 {
      MulMono(m, 101, r);
    }
  }

  /** The percentage of a part of the total is at most 100. */
  lemma PercentOfPart(count: nat, total: nat)
    requires count <= total
    ensures RoundPercent(count, total) <= 100
  {
    if total > 0 {
      RoundPercentFacts(count, total);
    }
  }

  /** Rounding keeps the order of the counts. */
  lemma RoundPercentMonotonic(a: nat, b: nat, total: nat)
    requires a <= b
    ensures RoundPercent(a, total) <= RoundPercent(b, total)
  {
    if total > 0 {
      RoundPercentFacts(a, total);
      RoundPercentFacts(b, total);
      var ra, rb := RoundPercent(a, total), RoundPercent(b, total);
      if ra > rb {
        MulMono(2 * total, rb + 1, ra);
      }
    }
  }
}
