/**
 * scikit-learn's `LabelEncoder` on a text column: fitting keeps the distinct
 * values in sorted order (`classes_`), a value's code is its index there, and
 * decoding reads the class back. Texts sort by Python string order and the
 * missing value (NaN) comes after every text.
 */
module Encoding {
  import opened Wrappers
  import Text
  import opened Frame

  /** Values an encoder can hold: a text or the missing value. */
  predicate IsCategory(c: Cell)
  {
    c.Text? || c.Missing?
  }

  predicate AllCategories(cs: seq<Cell>)
  {
    forall i | 0 <= i < |cs| :: IsCategory(cs[i])
  }

  /** The order of `classes_`: texts by Python's `<`, then the missing value. */
  predicate Before(a: Cell, b: Cell)
  {
    match (a, b)
    case (Text(x), Text(y)) => Text.Less(x, y)
    case (Text(_), Missing) => true
    case _ => false
  }

  predicate StrictlySorted(cs: seq<Cell>)
  {
    forall i, j | 0 <= i < j < |cs| :: Before(cs[i], cs[j])
  }

  /** A fitted encoder: its `classes_`. */
  datatype Encoder = Encoder(classes: seq<Cell>)

  predicate ValidEncoder(e: Encoder)
  {
    AllCategories(e.classes) && StrictlySorted(e.classes)
  }

  lemma BeforeIrreflexive(a: Cell)
    ensures !Before(a, a)
  {
    if a.Text? { Text.LessIrreflexive(a.s); }
  }

  lemma BeforeTransitive(a: Cell, b: Cell, c: Cell)
    requires Before(a, b) && Before(b, c)
    ensures Before(a, c)
  {
    if c.Text? { Text.LessTransitive(a.s, b.s, c.s); }
  }

  lemma BeforeAsymmetric(a: Cell, b: Cell)
    requires Before(a, b)
    ensures !Before(b, a)
  {
    if b.Text? { Text.LessAsymmetric(a.s, b.s); }
  }

  /** Any two different categories are ordered one way or the other. */
  lemma BeforeTotal(a: Cell, b: Cell)
    requires IsCategory(a) && IsCategory(b) && a != b
    ensures Before(a, b) || Before(b, a)
  {
    if a.Text? && b.Text? { Text.LessTotal(a.s, b.s); }
  }

  /** `x` added to a sorted list of distinct categories, keeping it sorted and distinct. */
  function Insert(sorted: seq<Cell>, x: Cell): (r: seq<Cell>)
    requires StrictlySorted(sorted) && AllCategories(sorted) && IsCategory(x)
    ensures StrictlySorted(r) && AllCategories(r)
    ensures forall c :: c in r <==> c in sorted || c == x
  {
    if sorted == [] then [x]
    else if sorted[0] == x then sorted
    else if Before(x, sorted[0]) then
      assert forall j | 0 < j < |sorted| :: Before(x, sorted[j]) by {
        forall j | 0 < j < |sorted| ensures Before(x, sorted[j]) {
          BeforeTransitive(x, sorted[0], sorted[j]);
        }
      }
      [x] + sorted
    else
      BeforeTotal(x, sorted[0]);
      var rest := Insert(sorted[1..], x);
      assert forall c | c in rest :: Before(sorted[0], c);
      [sorted[0]] + rest
  }

  /**
   * The sorted distinct values of a column, or, when a value is neither a text
   * nor missing, that value (Python's `sorted` cannot compare it with a text).
   */
  function Classes(values: seq<Cell>): (r: Result<seq<Cell>, Cell>)
    ensures r.Ok? <==> AllCategories(values)
    ensures r.Ok? ==> StrictlySorted(r.value) && AllCategories(r.value)
    ensures r.Ok? ==> forall c :: c in r.value <==> c in values
    ensures r.Err? ==> r.error in values && !IsCategory(r.error)
  {
    if values == [] then Ok([])
    else
      var last := values[|values| - 1];
      var init := values[..|values| - 1];
      assert values == init + [last];
      if !IsCategory(last) then Err(last)
      else
        match Classes(init)
        case Err(c) => Err(c)
        case Ok(cs) => Ok(Insert(cs, last))
  }

  /** `LabelEncoder().fit(values)`. */
  function Fit(values: seq<Cell>): (r: Result<Encoder, Cell>)
  {
    match Classes(values)
    case Ok(cs) => Ok(Encoder(cs))
    case Err(c) => Err(c)
  }

  /** The position of `x` in `classes`, if it is there. */
  function IndexOf(classes: seq<Cell>, x: Cell): (r: Option<nat>)
    ensures r.None? <==> x !in classes
    ensures r.Some? ==> r.value < |classes| && classes[r.value] == x
  {
    if classes == [] then None
    else if classes[0] == x then Some(0)
    else
      match IndexOf(classes[1..], x)
      case None => None
      case Some(k) => Some(k + 1)
  }

  /** `encoder.transform(values)`: each value's code, or the first value not among the classes. */
  function Transform(e: Encoder, values: seq<Cell>): (r: Result<seq<nat>, Cell>)
    ensures r.Ok? <==> forall i | 0 <= i < |values| :: values[i] in e.classes
    ensures r.Ok? ==> |r.value| == |values|
    ensures r.Ok? ==> forall i | 0 <= i < |values| :: r.value[i] < |e.classes| && e.classes[r.value[i]] == values[i]
    ensures r.Err? ==> r.error in values && r.error !in e.classes
  {
    if values == [] then Ok([])
    else
      match IndexOf(e.classes, values[0])
      case None => Err(values[0])
      case Some(k) =>
        match Transform(e, values[1..])
        case Err(c) => Err(c)
        case Ok(ks) => Ok([k] + ks)
  }

  /** `encoder.inverse_transform(codes)`: each code's class, or a code outside `0..k-1`. */
  function Inverse(e: Encoder, codes: seq<int>): (r: Result<seq<Cell>, int>)
    ensures r.Ok? <==> forall i | 0 <= i < |codes| :: 0 <= codes[i] < |e.classes|
    ensures r.Ok? ==> |r.value| == |codes| && forall i | 0 <= i < |codes| :: r.value[i] == e.classes[codes[i]]
    ensures r.Err? ==> r.error in codes && !(0 <= r.error < |e.classes|)
  {
    if codes == [] then Ok([])
    else if !(0 <= codes[0] < |e.classes|) then Err(codes[0])
    else
      match Inverse(e, codes[1..])
      case Err(k) => Err(k)
      case Ok(cs) => Ok([e.classes[codes[0]]] + cs)
  }

  /** `encoder.fit_transform(values)`. */
  function FitTransform(values: seq<Cell>): (r: Result<(Encoder, seq<nat>), Cell>)
  {
    match Fit(values)
    case Err(c) => Err(c)
    case Ok(e) =>
      match Transform(e, values)
      case Err(c) => Err(c)
      case Ok(codes) => Ok((e, codes))
  }

  // ---------------------------------------------------------------------------
  // Properties
  // ---------------------------------------------------------------------------

  /** A fitted encoder is sorted and distinct, and its classes are exactly the values seen. */
  lemma FitClasses(values: seq<Cell>)
    ensures Fit(values).Ok? <==> AllCategories(values)
    ensures Fit(values).Ok? ==> ValidEncoder(Fit(values).value)
    ensures Fit(values).Ok? ==> forall c :: c in Fit(values).value.classes <==> c in values
  {
  }

  /** Fitting succeeds on a text column, and every class is the code of some row: codes are dense. */
  lemma FitTransformCodes(values: seq<Cell>)
    requires AllCategories(values)
    ensures FitTransform(values).Ok?
    ensures var (e, codes) := FitTransform(values).value;
      forall k: nat | k < |e.classes| :: k in codes
  {
    var e := Fit(values).value;
    var codes := Transform(e, values).value;
    assert FitTransform(values) == Ok((e, codes));
    forall k: nat | k < |e.classes|
      ensures k in codes
    {
      assert e.classes[k] in e.classes;
      var i :| 0 <= i < |values| && values[i] == e.classes[k];
      CodeIsUnique(e, codes[i], k);
    }
  }

  /** Distinct classes: a class has one position only. */
  lemma CodeIsUnique(e: Encoder, i: nat, j: nat)
    requires ValidEncoder(e) && i < |e.classes| && j < |e.classes|
    requires e.classes[i] == e.classes[j]
    ensures i == j
  {
    if i < j || j < i {
      BeforeIrreflexive(e.classes[i]);
    }
  }

  /** Codes follow the class order: equal values share a code, and `a < b` gives `code(a) < code(b)`. */
  lemma TransformOrderPreserving(e: Encoder, values: seq<Cell>, i: nat, j: nat)
    requires ValidEncoder(e) && Transform(e, values).Ok? && i < |values| && j < |values|
    ensures var codes := Transform(e, values).value;
      && (values[i] == values[j] <==> codes[i] == codes[j])
      && (Before(values[i], values[j]) <==> codes[i] < codes[j])
  {
    var codes := Transform(e, values).value;
    if values[i] == values[j] {
      CodeIsUnique(e, codes[i], codes[j]);
      BeforeIrreflexive(values[i]);
    }
    if Before(values[i], values[j]) && codes[j] <= codes[i] {
      BeforeIrreflexive(values[i]);
      if codes[j] < codes[i] {
        BeforeAsymmetric(values[i], values[j]);
      }
    }
    if codes[i] < codes[j] {
      assert Before(e.classes[codes[i]], e.classes[codes[j]]);
    }
  }

  /** Two sorted distinct lists holding the same values are the same list. */
  lemma {:induction false} SortedUnique(a: seq<Cell>, b: seq<Cell>)
    requires StrictlySorted(a) && StrictlySorted(b)
    requires forall c :: c in a <==> c in b
    ensures a == b
  {
    if a != [] { assert a[0] in a; }
    if b != [] { assert b[0] in b; }
    if a != [] && b != [] {
      if a[0] != b[0] {
        var k :| 0 <= k < |b| && b[k] == a[0];
        var m :| 0 <= m < |a| && a[m] == b[0];
        assert k > 0 && m > 0;
        BeforeAsymmetric(b[0], a[0]);
      }
      forall c
        ensures c in a[1..] <==> c in b[1..]
      {
        if c in a[1..] {
          var i :| 1 <= i < |a| && a[i] == c;
          assert Before(a[0], c) && a[i] in a;
          BeforeIrreflexive(c);
          var k :| 0 <= k < |b| && b[k] == c;
          assert k != 0;
          assert b[1..][k - 1] == c;
        }
        if c in b[1..] {
          var i :| 1 <= i < |b| && b[i] == c;
          assert Before(b[0], c) && b[i] in b;
          BeforeIrreflexive(c);
          var k :| 0 <= k < |a| && a[k] == c;
          assert k != 0;
          assert a[1..][k - 1] == c;
        }
      }
      SortedUnique(a[1..], b[1..]);
    }
  }

  /** The fitted classes depend on the set of values only, not on the order of the rows. */
  lemma FitIndependentOfOrder(xs: seq<Cell>, ys: seq<Cell>)
    requires multiset(xs) == multiset(ys)
    ensures Fit(xs).Ok? <==> Fit(ys).Ok?
    ensures Fit(xs).Ok? ==> Fit(xs) == Fit(ys)
  {
    forall c
      ensures c in xs <==> c in ys
    {
      assert c in xs <==> c in multiset(xs);
      assert c in ys <==> c in multiset(ys);
    }
    assert AllCategories(xs) <==> AllCategories(ys) by {
      forall i | 0 <= i < |ys| ensures ys[i] in xs { assert ys[i] in ys; }
      forall i | 0 <= i < |xs| ensures xs[i] in ys { assert xs[i] in xs; }
    }
    if AllCategories(xs) {
      SortedUnique(Classes(xs).value, Classes(ys).value);
    }
  }

  /** A row's code is the same whatever the order of the rows the encoder was fitted on. */
  lemma CodesIndependentOfRowOrder(xs: seq<Cell>, ys: seq<Cell>, i: nat, j: nat)
    requires multiset(xs) == multiset(ys) && AllCategories(xs)
    requires i < |xs| && j < |ys| && xs[i] == ys[j]
    ensures FitTransform(xs).Ok? && FitTransform(ys).Ok?
    ensures FitTransform(xs).value.1[i] == FitTransform(ys).value.1[j]
  {
    FitIndependentOfOrder(xs, ys);
    var e := Fit(xs).value;
    CodeIsUnique(e, FitTransform(xs).value.1[i], FitTransform(ys).value.1[j]);
  }

  /** Decoding inverts encoding for every value the encoder knows. */
  lemma InverseOfTransform(e: Encoder, values: seq<Cell>)
    requires Transform(e, values).Ok?
    ensures Inverse(e, Transform(e, values).value) == Ok(values)
  {
    var codes := Transform(e, values).value;
    var r := Inverse(e, codes);
    assert r.value == values;
  }
}
