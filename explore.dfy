/**
 * The exploration helper that counts, over every element of the export tagged
 * with a given name, the values of one attribute, and returns the counts as a
 * dictionary ordered by count, largest first, ties in the order the values
 * were first seen.
 */
module Explore {
  import opened Wrappers
  import Xml

  /** The non-empty values of `attribute` on the elements tagged `tag`, in the order given. */
  function Values(events: seq<Xml.Element>, tag: string, attribute: string): (vs: seq<string>)
    ensures |vs| <= |events|
    ensures forall v | v in vs :: v != ""
  {
    if events == [] then []
    else
      var rest := Values(events[..|events| - 1], tag, attribute);
      var e := events[|events| - 1];
      var value := Xml.Attr(e, attribute);
      if e.tag == tag && value.Some? && value.value != "" then rest + [value.value] else rest
  }

  /** The distinct values in the order of their first occurrence (a dict's insertion order). */
  function FirstSeen(vs: seq<string>): (keys: seq<string>)
    ensures forall v :: v in keys <==> v in vs
    ensures forall i, j | 0 <= i < j < |keys| :: keys[i] != keys[j]
  {
    if vs == [] then []
    else
      var keys := FirstSeen(vs[..|vs| - 1]);
      var v := vs[|vs| - 1];
      assert forall w :: w in vs <==> w in vs[..|vs| - 1] || w == v by {
        assert vs == vs[..|vs| - 1] + [v];
      }
      if v in keys then keys else keys + [v]
  }

  /** How often `v` occurs. */
  function Occurrences(vs: seq<string>, v: string): nat
  {
    multiset(vs)[v]
  }

  /** Each key paired with its count in `vs`. */
  function Pairs(vs: seq<string>, keys: seq<string>): (items: seq<(string, nat)>)
    ensures |items| == |keys|
    ensures forall i | 0 <= i < |items| :: items[i] == (keys[i], Occurrences(vs, keys[i]))
  {
    seq(|keys|, i requires 0 <= i < |keys| => (keys[i], Occurrences(vs, keys[i])))
  }

  /** The counting dictionary as its items, in insertion order. */
  function Tally(vs: seq<string>): seq<(string, nat)>
  {
    Pairs(vs, FirstSeen(vs))
  }

  // ---------------------------------------------------------------------------
  // `sorted(items, key=count, reverse=True)`: a stable sort, largest count first
  // ---------------------------------------------------------------------------

  predicate NonIncreasing(items: seq<(string, nat)>)
  {
    forall i, j | 0 <= i < j < |items| :: items[i].1 >= items[j].1
  }

  /** `x` placed after every item whose count is at least its own. */
  function InsertByCount(sorted: seq<(string, nat)>, x: (string, nat)): (r: seq<(string, nat)>)
    ensures multiset(r) == multiset(sorted) + multiset{x} && |r| == |sorted| + 1
    ensures r[0] == x || (sorted != [] && r[0] == sorted[0])
  {
    if sorted == [] || sorted[0].1 < x.1 then [x] + sorted
    else
      assert sorted == [sorted[0]] + sorted[1..];
      [sorted[0]] + InsertByCount(sorted[1..], x)
  }

  /** The items ordered by count, largest first, equal counts in their given order. */
  function SortByCount(items: seq<(string, nat)>): (r: seq<(string, nat)>)
    ensures multiset(r) == multiset(items) && |r| == |items|
  {
    if items == [] then []
    else
      assert items == items[..|items| - 1] + [items[|items| - 1]];
      InsertByCount(SortByCount(items[..|items| - 1]), items[|items| - 1])
  }

  /** The items with count `c`, in their order. */
  function WithCount(items: seq<(string, nat)>, c: nat): seq<(string, nat)>
  {
    if items == [] then []
    else if items[|items| - 1].1 == c then WithCount(items[..|items| - 1], c) + [items[|items| - 1]]
    else WithCount(items[..|items| - 1], c)
  }

  function Total(items: seq<(string, nat)>): nat
  {
    if items == [] then 0 else Total(items[..|items| - 1]) + items[|items| - 1].1
  }

  /** An item counting at least the head of a non-increasing list can go in front of it. */
  lemma ConsOrdered(h: (string, nat), items: seq<(string, nat)>)
    requires NonIncreasing(items) && (items == [] || h.1 >= items[0].1)
    ensures NonIncreasing([h] + items)
  {
    var r := [h] + items;
    forall i, j | 0 <= i < j < |r| ensures r[i].1 >= r[j].1 {
      if i == 0 {
        assert items[0].1 >= items[j - 1].1;
      } else {
        assert r[i] == items[i - 1] && r[j] == items[j - 1];
      }
    }
  }

  /** The tail of a non-increasing list is non-increasing. */
  lemma TailOrdered(items: seq<(string, nat)>)
    requires NonIncreasing(items) && items != []
    ensures NonIncreasing(items[1..])
  {
    forall i, j | 0 <= i < j < |items| - 1 ensures items[1..][i].1 >= items[1..][j].1 {
      assert items[1..][i] == items[i + 1] && items[1..][j] == items[j + 1];
    }
  }

  /** Inserting keeps the order non-increasing. */
  lemma {:induction false} InsertKeepsOrder(sorted: seq<(string, nat)>, x: (string, nat))
    requires NonIncreasing(sorted)
    ensures NonIncreasing(InsertByCount(sorted, x))
  {
    if sorted == [] || sorted[0].1 < x.1 {
      ConsOrdered(x, sorted);
    } else {
      TailOrdered(sorted);
      InsertKeepsOrder(sorted[1..], x);
      var rest := InsertByCount(sorted[1..], x);
      assert sorted[0].1 >= rest[0].1 by {
        if rest[0] != x {
          assert sorted[0].1 >= sorted[1].1;
        }
      }
      ConsOrdered(sorted[0], rest);
    }
  }

  /** Sorting gives a non-increasing order. */
  lemma {:induction false} SortOrders(items: seq<(string, nat)>)
    ensures NonIncreasing(SortByCount(items))
  {
    if items != [] {
      SortOrders(items[..|items| - 1]);
      InsertKeepsOrder(SortByCount(items[..|items| - 1]), items[|items| - 1]);
    }
  }

  /** Filtering by count distributes over concatenation. */
  lemma {:induction false} WithCountConcat(a: seq<(string, nat)>, b: seq<(string, nat)>, c: nat)
    ensures WithCount(a + b, c) == WithCount(a, c) + WithCount(b, c)
  {
    if b == [] {
      assert a + b == a;
    } else {
      assert (a + b)[..|a + b| - 1] == a + b[..|b| - 1];
      WithCountConcat(a, b[..|b| - 1], c);
    }
  }

  /** In a non-increasing list, no item after one with count below `c` has count `c`. */
  lemma {:induction false} WithCountOfSmaller(items: seq<(string, nat)>, c: nat)
    requires forall k | 0 <= k < |items| :: items[k].1 < c
    ensures WithCount(items, c) == []
  {
    if items != [] {
      WithCountOfSmaller(items[..|items| - 1], c);
    }
  }

  /** Filtering a list with one more item in front. */
  lemma WithCountCons(h: (string, nat), items: seq<(string, nat)>, c: nat)
    ensures WithCount([h] + items, c) == (if h.1 == c then [h] else []) + WithCount(items, c)
  {
    WithCountConcat([h], items, c);
    assert WithCount([h], c) == WithCount([], c) + (if h.1 == c then [h] else []);
  }

  /** Every item of a non-increasing list counts no more than its head. */
  lemma BelowHead(sorted: seq<(string, nat)>, c: nat)
    requires NonIncreasing(sorted) && sorted != [] && sorted[0].1 < c
    ensures forall k | 0 <= k < |sorted| :: sorted[k].1 < c
  {
    assert forall k | 0 <= k < |sorted| :: sorted[k].1 <= sorted[0].1;
  }

  /** An inserted item lands after the items of its own count. */
  lemma {:induction false} InsertIsStable(sorted: seq<(string, nat)>, x: (string, nat), c: nat)
    requires NonIncreasing(sorted)
    ensures WithCount(InsertByCount(sorted, x), c) == WithCount(sorted, c) + (if x.1 == c then [x] else [])
  {
    if sorted == [] || sorted[0].1 < x.1 {
      WithCountCons(x, sorted, c);
      if x.1 == c && sorted != [] {
        BelowHead(sorted, c);
        WithCountOfSmaller(sorted, c);
      }
    } else {
      assert sorted == [sorted[0]] + sorted[1..];
      TailOrdered(sorted);
      InsertIsStable(sorted[1..], x, c);
      WithCountCons(sorted[0], InsertByCount(sorted[1..], x), c);
      WithCountCons(sorted[0], sorted[1..], c);
    }
  }

  /** Sorting keeps the items of each count in their given order. */
  lemma {:induction false} SortIsStable(items: seq<(string, nat)>, c: nat)
    ensures WithCount(SortByCount(items), c) == WithCount(items, c)
  {
    if items != [] {
      var init := items[..|items| - 1];
      SortIsStable(init, c);
      SortOrders(init);
      InsertIsStable(SortByCount(init), items[|items| - 1], c);
    }
  }

  /** Inserting adds the item's count to the total. */
  lemma {:induction false} InsertTotal(sorted: seq<(string, nat)>, x: (string, nat))
    ensures Total(InsertByCount(sorted, x)) == Total(sorted) + x.1
  {
    if sorted == [] || sorted[0].1 < x.1 {
      TotalConcat([x], sorted);
    } else {
      InsertTotal(sorted[1..], x);
      TotalConcat([sorted[0]], InsertByCount(sorted[1..], x));
      TotalConcat([sorted[0]], sorted[1..]);
      assert sorted == [sorted[0]] + sorted[1..];
    }
  }

  lemma {:induction false} TotalConcat(a: seq<(string, nat)>, b: seq<(string, nat)>)
    ensures Total(a + b) == Total(a) + Total(b)
  {
    if b == [] {
      assert a + b == a;
    } else {
      assert (a + b)[..|a + b| - 1] == a + b[..|b| - 1];
      TotalConcat(a, b[..|b| - 1]);
    }
  }

  /** Sorting keeps the total. */
  lemma {:induction false} SortTotal(items: seq<(string, nat)>)
    ensures Total(SortByCount(items)) == Total(items)
  {
    if items != [] {
      SortTotal(items[..|items| - 1]);
      InsertTotal(SortByCount(items[..|items| - 1]), items[|items| - 1]);
    }
  }

  // ---------------------------------------------------------------------------
  // The tally
  // ---------------------------------------------------------------------------

  /** A key's count in `vs` after one more value. */
  lemma OccurrencesStep(vs: seq<string>, v: string, k: string)
    ensures Occurrences(vs + [v], k) == Occurrences(vs, k) + (if k == v then 1 else 0)
  {
    assert multiset(vs + [v]) == multiset(vs) + multiset{v};
  }

  /** One more value adds one to the total of the keys when it is one of them. */
  lemma {:induction false} PairsStep(vs: seq<string>, v: string, keys: seq<string>)
    requires forall i, j | 0 <= i < j < |keys| :: keys[i] != keys[j]
    ensures Total(Pairs(vs + [v], keys)) == Total(Pairs(vs, keys)) + (if v in keys then 1 else 0)
  {
    if keys != [] {
      var shorter := keys[..|keys| - 1];
      var k := keys[|keys| - 1];
      assert Pairs(vs + [v], keys)[..|keys| - 1] == Pairs(vs + [v], shorter);
      assert Pairs(vs, keys)[..|keys| - 1] == Pairs(vs, shorter);
      PairsStep(vs, v, shorter);
      OccurrencesStep(vs, v, k);
      assert keys == shorter + [k];
      assert k !in shorter;
    }
  }

  /** No values, no counts. */
  lemma {:induction false} PairsOfNothing(keys: seq<string>)
    ensures Total(Pairs([], keys)) == 0
  {
    if keys != [] {
      assert Pairs([], keys)[..|keys| - 1] == Pairs([], keys[..|keys| - 1]);
      PairsOfNothing(keys[..|keys| - 1]);
    }
  }

  /** Distinct keys covering every value count every value once. */
  lemma {:induction false} PairsCover(vs: seq<string>, keys: seq<string>)
    requires forall i, j | 0 <= i < j < |keys| :: keys[i] != keys[j]
    requires forall v | v in vs :: v in keys
    ensures Total(Pairs(vs, keys)) == |vs|
  {
    if vs == [] {
      PairsOfNothing(keys);
    } else {
      var init := vs[..|vs| - 1];
      var v := vs[|vs| - 1];
      assert vs == init + [v];
      PairsCover(init, keys);
      PairsStep(init, v, keys);
    }
  }

  // ---------------------------------------------------------------------------
  // `count_tag_attribute`
  // ---------------------------------------------------------------------------

  /**
   * The counting loop over the document's `start` events followed by the sort.
   * The result has one entry per distinct non-empty value of `attribute` on an
   * element tagged `tag`, its count being the number of such elements carrying
   * it, largest count first and equal counts in first-seen order.
   */
  method CountTagAttribute(doc: Xml.Element, tag: string, attribute: string) returns (result: seq<(string, nat)>)
    ensures var vs := Values(Xml.StartEvents(doc), tag, attribute);
      result == SortByCount(Tally(vs)) && Histogram(result, vs)
  {
    var events := Xml.StartEvents(doc);
    var keys: seq<string> := [];
    var counts: map<string, nat> := map[];
    for n := 0 to |events|
      invariant Tallied(keys, counts, Values(events[..n], tag, attribute))
    {
      var e := events[n];
      ghost var seen := Values(events[..n], tag, attribute);
      ValuesStep(events, n, tag, attribute);
      if e.tag == tag {
        var value := Xml.Attr(e, attribute);
        if value.Some? && value.value != "" {
          var v := value.value;
          assert Values(events[..n + 1], tag, attribute) == seen + [v];
          TalliedStep(keys, counts, seen, v);
          if v !in counts {
            keys := keys + [v];
          }
          counts := counts[v := Get(counts, v) + 1];
        } else {
          assert Values(events[..n + 1], tag, attribute) == seen;
        }
      } else {
        assert Values(events[..n + 1], tag, attribute) == seen;
      }
    }
    assert events[..|events|] == events;
    TalliedItems(keys, counts, Values(events, tag, attribute));
    var items := seq(|keys|, i requires 0 <= i < |keys| => (keys[i], counts[keys[i]]));
    result := SortByCount(items);
    HistogramFacts(Values(events, tag, attribute));
  }

  /** A `defaultdict(int)` lookup: an absent key reads as 0. */
  function Get(counts: map<string, nat>, v: string): nat
  {
    if v in counts then counts[v] else 0
  }

  /** The counting dictionary after the values `vs`: its keys in first-seen order, each with its count. */
  ghost predicate Tallied(keys: seq<string>, counts: map<string, nat>, vs: seq<string>)
  {
    && keys == FirstSeen(vs)
    && (forall k :: k in counts <==> k in keys)
    && (forall k | k in counts :: counts[k] == Occurrences(vs, k))
  }

  /** Counting one more value keeps the dictionary in step. */
  lemma TalliedStep(keys: seq<string>, counts: map<string, nat>, vs: seq<string>, v: string)
    requires Tallied(keys, counts, vs)
    ensures Tallied(if v in counts then keys else keys + [v], counts[v := Get(counts, v) + 1], vs + [v])
  {
    KeysStep(keys, vs, v);
    CountsStep(counts, vs, v);
  }

  /** A value is added to the keys the first time it is seen. */
  lemma KeysStep(keys: seq<string>, vs: seq<string>, v: string)
    requires keys == FirstSeen(vs)
    ensures (if v in keys then keys else keys + [v]) == FirstSeen(vs + [v])
  {
    FirstSeenStep(vs, v);
  }

  /** Only the counted value's count goes up, by one. */
  lemma CountsStep(counts: map<string, nat>, vs: seq<string>, v: string)
    requires forall k | k in counts :: counts[k] == Occurrences(vs, k)
    requires forall k | k !in counts :: Occurrences(vs, k) == 0
    ensures forall k | k in counts[v := Get(counts, v) + 1] :: counts[v := Get(counts, v) + 1][k] == Occurrences(vs + [v], k)
  {
    forall k | k in counts[v := Get(counts, v) + 1]
      ensures counts[v := Get(counts, v) + 1][k] == Occurrences(vs + [v], k)
    {
      OccurrencesStep(vs, v, k);
    }
  }

  /** The dictionary's items are the tally. */
  lemma TalliedItems(keys: seq<string>, counts: map<string, nat>, vs: seq<string>)
    requires Tallied(keys, counts, vs)
    ensures seq(|keys|, i requires 0 <= i < |keys| => (keys[i], counts[keys[i]])) == Tally(vs)
  {
  }

  /** The values of one more event. */
  lemma ValuesStep(events: seq<Xml.Element>, n: nat, tag: string, attribute: string)
    requires n < |events|
    ensures var e := events[n]; var value := Xml.Attr(e, attribute);
      Values(events[..n + 1], tag, attribute)
      == Values(events[..n], tag, attribute)
         + (if e.tag == tag && value.Some? && value.value != "" then [value.value] else [])
  {
    assert events[..n + 1][..n] == events[..n];
  }

  /** The first-seen order after one more value. */
  lemma FirstSeenStep(vs: seq<string>, v: string)
    ensures FirstSeen(vs + [v]) == if v in vs then FirstSeen(vs) else FirstSeen(vs) + [v]
  {
    assert (vs + [v])[..|vs|] == vs;
  }

  /**
   * `result` is the histogram of `vs`: one entry per distinct value with its
   * number of occurrences, the keys distinct, largest count first, equal counts
   * in the order their values were first seen, the counts adding up to `|vs|`.
   */
  ghost predicate Histogram(result: seq<(string, nat)>, vs: seq<string>)
  {
    && (forall v :: (exists i | 0 <= i < |result| :: result[i].0 == v) <==> v in vs)
    && (forall i | 0 <= i < |result| :: result[i].1 == Occurrences(vs, result[i].0) && result[i].1 >= 1)
    && (forall i, j | 0 <= i < j < |result| :: result[i].0 != result[j].0)
    && NonIncreasing(result)
    && (forall c: nat :: WithCount(result, c) == WithCount(Tally(vs), c))
    && Total(result) == |vs|
  }

  /** The sorted tally is the histogram of the values. */
  lemma HistogramFacts(vs: seq<string>)
    ensures Histogram(SortByCount(Tally(vs)), vs)
  {
    var items := Tally(vs);
    var result := SortByCount(items);
    SortOrders(items);
    SortTotal(items);
    PairsCover(vs, FirstSeen(vs));
    forall c: nat
      ensures WithCount(result, c) == WithCount(items, c)
    {
      SortIsStable(items, c);
    }
    TallyEntries(vs, result);
  }

  /** Any arrangement of the tally has the values as keys, each once, with their counts. */
  lemma TallyEntries(vs: seq<string>, result: seq<(string, nat)>)
    requires multiset(result) == multiset(Tally(vs))
    ensures forall v :: (exists i | 0 <= i < |result| :: result[i].0 == v) <==> v in vs
    ensures forall i | 0 <= i < |result| :: result[i].1 == Occurrences(vs, result[i].0) && result[i].1 >= 1
    ensures forall i, j | 0 <= i < j < |result| :: result[i].0 != result[j].0
  {
    var items := Tally(vs);
    assert forall p :: p in result <==> p in items by {
      forall p ensures p in result <==> p in items {
        assert p in result <==> p in multiset(result);
        assert p in items <==> p in multiset(items);
      }
    }
    forall v
      ensures (exists i | 0 <= i < |result| :: result[i].0 == v) <==> v in vs
    {
      if v in vs {
        var k :| 0 <= k < |FirstSeen(vs)| && FirstSeen(vs)[k] == v;
        assert items[k] in result;
      }
      if exists i | 0 <= i < |result| :: result[i].0 == v {
        var i :| 0 <= i < |result| && result[i].0 == v;
        assert result[i] in items;
      }
    }
    forall i | 0 <= i < |result|
      ensures result[i].1 == Occurrences(vs, result[i].0) && result[i].1 >= 1
    {
      assert result[i] in items;
      assert result[i].0 in vs;
    }
    forall i, j | 0 <= i < j < |result|
      ensures result[i].0 != result[j].0
    {
      DistinctAfterSort(items, result, i, j);
    }
  }

  /** Two entries of a permutation of the tally have different keys. */
  lemma DistinctAfterSort(items: seq<(string, nat)>, result: seq<(string, nat)>, i: nat, j: nat)
    requires forall a, b | 0 <= a < b < |items| :: items[a].0 != items[b].0
    requires multiset(result) == multiset(items)
    requires i < j < |result|
    ensures result[i].0 != result[j].0
  {
    if result[i].0 == result[j].0 {
      assert result[i] in multiset(items) && result[j] in multiset(items);
      var a :| 0 <= a < |items| && items[a] == result[i];
      var b :| 0 <= b < |items| && items[b] == result[j];
      assert a == b;
      assert result == result[..i] + [result[i]] + result[i + 1..j] + [result[j]] + result[j + 1..];
      ItemsOnce(items, a);
      assert false;
    }
  }

  /** An item of a list with distinct keys occurs once. */
  lemma {:induction false} ItemsOnce(items: seq<(string, nat)>, a: nat)
    requires forall x, y | 0 <= x < y < |items| :: items[x].0 != items[y].0
    requires a < |items|
    ensures multiset(items)[items[a]] == 1
  {
    var p := items[a];
    assert items == items[..a] + [p] + items[a + 1..];
    assert p !in items[..a] && p !in items[a + 1..];
    assert multiset(items[..a])[p] == 0 && multiset(items[a + 1..])[p] == 0;
  }
}
