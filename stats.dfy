/**
 * The two pandas reductions the imputation uses, over the present values of a
 * column (pandas skips NaN): `Series.median()` and `Series.mode()[0]`.
 */
module Stats {
  import opened Wrappers

  predicate Sorted(xs: seq<real>)
  {
    forall i, j | 0 <= i < j < |xs| :: xs[i] <= xs[j]
  }

  /** A value no greater than the head of an ascending list can go in front of it. */
  lemma ConsSorted(h: real, xs: seq<real>)
    requires Sorted(xs) && (xs == [] || h <= xs[0])
    ensures Sorted([h] + xs)
  {
    var r := [h] + xs;
    forall i, j | 0 <= i < j < |r| ensures r[i] <= r[j] {
      if i == 0 {
        assert xs[0] <= xs[j - 1];
      } else {
        assert r[i] == xs[i - 1] && r[j] == xs[j - 1];
      }
    }
  }

  /** The tail of an ascending list is ascending. */
  lemma TailSorted(xs: seq<real>)
    requires Sorted(xs) && xs != []
    ensures Sorted(xs[1..])
  {
    forall i, j | 0 <= i < j < |xs| - 1 ensures xs[1..][i] <= xs[1..][j] {
      assert xs[1..][i] == xs[i + 1] && xs[1..][j] == xs[j + 1];
    }
  }

  function InsertSorted(xs: seq<real>, x: real): (r: seq<real>)
    requires Sorted(xs)
    ensures Sorted(r) && multiset(r) == multiset(xs) + multiset{x} && |r| == |xs| + 1
    ensures r[0] == x || (xs != [] && r[0] == xs[0])
  {
    if xs == [] || x <= xs[0] then
      ConsSorted(x, xs);
      [x] + xs
    else
      TailSorted(xs);
      var rest := InsertSorted(xs[1..], x);
      assert xs == [xs[0]] + xs[1..];
      assert xs[0] <= rest[0] by {
        if rest[0] != x {
          assert xs[0] <= xs[1];
        }
      }
      ConsSorted(xs[0], rest);
      [xs[0]] + rest
  }

  /** The values in ascending order. */
  function Sort(xs: seq<real>): (r: seq<real>)
    ensures Sorted(r) && multiset(r) == multiset(xs) && |r| == |xs|
  {
    if xs == [] then []
    else
      assert xs == xs[..|xs| - 1] + [xs[|xs| - 1]];
      InsertSorted(Sort(xs[..|xs| - 1]), xs[|xs| - 1])
  }

  /** The head of an ascending list is its least value. */
  lemma HeadIsLeast(a: seq<real>, v: real)
    requires Sorted(a) && v in multiset(a)
    ensures a != [] && a[0] <= v
  {
    var i :| 0 <= i < |a| && a[i] == v;
    assert a[0] <= a[i];
  }

  /** Two ascending lists holding the same values, with multiplicity, are the same list. */
  lemma {:induction false} SortedUnique(a: seq<real>, b: seq<real>)
    requires Sorted(a) && Sorted(b) && multiset(a) == multiset(b)
    ensures a == b
  {
    if a == [] {
      assert |b| == 0 by { assert |multiset(b)| == 0; }
    } else {
      assert a[0] in multiset(a);
      HeadIsLeast(b, a[0]);
      HeadIsLeast(a, b[0]);
      assert a[0] == b[0];
      assert a == [a[0]] + a[1..] && b == [b[0]] + b[1..];
      assert multiset(a) == multiset{a[0]} + multiset(a[1..]);
      assert multiset(b) == multiset{a[0]} + multiset(b[1..]);
      assert multiset(a[1..]) == multiset(a) - multiset{a[0]} == multiset(b[1..]);
      TailSorted(a);
      TailSorted(b);
      SortedUnique(a[1..], b[1..]);
    }
  }

  /** `median()`: the middle value, or the mean of the two middle values; `None` for no values. */
  function Median(xs: seq<real>): (r: Option<real>)
    ensures r.None? <==> xs == []
  {
    if xs == [] then None
    else
      var s := Sort(xs);
      var n := |s|;
      if n % 2 == 1 then Some(s[n / 2]) else Some((s[n / 2 - 1] + s[n / 2]) / 2.0)
  }

  /** The median does not depend on the order of the values. */
  lemma MedianIndependentOfOrder(xs: seq<real>, ys: seq<real>)
    requires multiset(xs) == multiset(ys)
    ensures Median(xs) == Median(ys)
  {
    SortedUnique(Sort(xs), Sort(ys));
    assert |xs| == |ys| by { assert |multiset(xs)| == |multiset(ys)|; }
  }

  /** The median splits the values: at least half are no greater, at least half no smaller. */
  lemma MedianSplits(xs: seq<real>)
    requires xs != []
    ensures var m := Median(xs).value; var s := Sort(xs);
      && (forall i | 0 <= i < (|s| + 1) / 2 :: s[i] <= m)
      && (forall i | |s| / 2 <= i < |s| :: m <= s[i])
  {
    var s := Sort(xs);
    MiddleSplits(s, Median(xs).value);
  }

  /** In an ascending list, a value between the two middle entries splits it. */
  lemma MiddleSplits(s: seq<real>, m: real)
    requires Sorted(s) && s != []
    requires m == if |s| % 2 == 1 then s[|s| / 2] else (s[|s| / 2 - 1] + s[|s| / 2]) / 2.0
    ensures forall i | 0 <= i < (|s| + 1) / 2 :: s[i] <= m
    ensures forall i | |s| / 2 <= i < |s| :: m <= s[i]
  {
    var n := |s|;
    var lo := if n % 2 == 1 then n / 2 else n / 2 - 1;
    assert s[lo] <= m <= s[n / 2];
    forall i | 0 <= i < (n + 1) / 2 ensures s[i] <= m {
      assert s[i] <= s[lo];
    }
    forall i | n / 2 <= i < n ensures m <= s[i] {
      assert s[n / 2] <= s[i];
    }
  }

  /** The median read off any ascending arrangement of the values. */
  lemma MedianBySorting(xs: seq<real>, s: seq<real>)
    requires Sorted(s) && multiset(xs) == multiset(s) && s != []
    ensures Median(xs) == Some(if |s| % 2 == 1 then s[|s| / 2] else (s[|s| / 2 - 1] + s[|s| / 2]) / 2.0)
  {
    SortedUnique(Sort(xs), s);
    assert |xs| == |s| by { assert |multiset(xs)| == |multiset(s)|; }
  }

  function Count(xs: seq<real>, v: real): nat
  {
    multiset(xs)[v]
  }

  /** `a` is at least as good a mode as `b`: more frequent, or as frequent and no larger. */
  predicate AtLeastAsGood(xs: seq<real>, a: real, b: real)
  {
    Count(xs, b) < Count(xs, a) || (Count(xs, b) == Count(xs, a) && a <= b)
  }

  /** The best of `candidates` as a mode of `xs`. */
  function BestOf(xs: seq<real>, candidates: seq<real>): (r: real)
    requires candidates != []
    ensures r in candidates
    ensures forall v | v in candidates :: AtLeastAsGood(xs, r, v)
  {
    if |candidates| == 1 then candidates[0]
    else
      var b := BestOf(xs, candidates[1..]);
      assert forall v | v in candidates :: v == candidates[0] || v in candidates[1..];
      if AtLeastAsGood(xs, candidates[0], b) then candidates[0] else b
  }

  /**
   * `mode()[0]`: a most frequent value, the smallest one on a tie; `None` when
   * there are no values (the empty `mode()` has no entry 0).
   */
  function Mode(xs: seq<real>): (r: Option<real>)
    ensures r.None? <==> xs == []
    ensures r.Some? ==> r.value in xs
    ensures r.Some? ==> forall v | v in xs :: Count(xs, v) <= Count(xs, r.value)
    ensures r.Some? ==> forall v | v in xs && Count(xs, v) == Count(xs, r.value) :: r.value <= v
  {
    if xs == [] then None else Some(BestOf(xs, xs))
  }

  /** Only one value is a most frequent value that is smallest among the most frequent. */
  lemma ModeIsUnique(xs: seq<real>, m: real)
    requires m in xs
    requires forall v | v in xs :: Count(xs, v) <= Count(xs, m)
    requires forall v | v in xs && Count(xs, v) == Count(xs, m) :: m <= v
    ensures Mode(xs) == Some(m)
  {
  }

  /** The mode does not depend on the order of the values. */
  lemma ModeIndependentOfOrder(xs: seq<real>, ys: seq<real>)
    requires multiset(xs) == multiset(ys)
    ensures Mode(xs) == Mode(ys)
  {
    if xs != [] {
      assert forall v :: v in xs <==> v in ys by {
        forall v ensures v in xs <==> v in ys {
          assert v in xs <==> v in multiset(xs);
          assert v in ys <==> v in multiset(ys);
        }
      }
      ModeIsUnique(ys, Mode(xs).value);
    } else {
      assert |ys| == 0 by { assert |multiset(xs)| == |multiset(ys)|; }
    }
  }
}
