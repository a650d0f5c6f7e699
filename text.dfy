/**
 * The few Python string operations the scripts rely on, on strings as sequences
 * of code points: `str.split()` with no argument, `str.replace(ch, '')`,
 * substring search, and the code-point order `<` that `sorted` uses.
 */
module Text {
  import opened Wrappers

  /** The characters Python's `str.split()` with no argument splits on (`str.isspace`). */
  predicate IsSpace(c: char)
  {
    || c == ' '
    || ('\t' <= c <= '\r')
    || ('\U{1C}' <= c <= '\U{1F}')
    || c == '\U{85}' || c == '\U{A0}' || c == '\U{1680}'
    || ('\U{2000}' <= c <= '\U{200A}')
    || c == '\U{2028}' || c == '\U{2029}' || c == '\U{202F}' || c == '\U{205F}' || c == '\U{3000}'
  }

  predicate AllSpace(s: string)
  {
    forall i :: 0 <= i < |s| ==> IsSpace(s[i])
  }

  predicate NoSpace(s: string)
  {
    forall i :: 0 <= i < |s| ==> !IsSpace(s[i])
  }

  /** The index of the first character of `s` at or after `i` that is not whitespace, or `|s|`. */
  function SkipSpaces(s: string, i: nat): (j: nat)
    requires i <= |s|
    ensures i <= j <= |s|
    ensures forall k | i <= k < j :: IsSpace(s[k])
    ensures j == |s| || !IsSpace(s[j])
    decreases |s| - i
  {
    if i < |s| && IsSpace(s[i]) then SkipSpaces(s, i + 1) else i
  }

  /** The end of the run of non-whitespace characters that starts at `i`. */
  function WordEnd(s: string, i: nat): (j: nat)
    requires i <= |s|
    ensures i <= j <= |s|
    ensures forall k | i <= k < j :: !IsSpace(s[k])
    ensures j == |s| || IsSpace(s[j])
    decreases |s| - i
  {
    if i < |s| && !IsSpace(s[i]) then WordEnd(s, i + 1) else i
  }

  /** `s.split()[0]`, or `None` where Python raises IndexError (nothing but whitespace). */
  function FirstToken(s: string): Option<string>
  {
    var i := SkipSpaces(s, 0);
    if i == |s| then None else Some(s[i..WordEnd(s, i)])
  }

  /**
   * The first token is the first maximal run of non-whitespace characters: only
   * whitespace comes before it, and whitespace or the end of the string after it.
   * There is none exactly when the string is all whitespace.
   */
  lemma FirstTokenIsLeadingWord(s: string)
    ensures FirstToken(s).None? <==> AllSpace(s)
    ensures FirstToken(s).Some? ==>
      var w := FirstToken(s).value;
      && w != [] && NoSpace(w)
      && exists i :: 0 <= i && i + |w| <= |s| && AllSpace(s[..i]) && s[i..i + |w|] == w
                     && (i + |w| == |s| || IsSpace(s[i + |w|]))
  {
    var i := SkipSpaces(s, 0);
    if i == |s| {
      assert AllSpace(s);
    } else {
      var j := WordEnd(s, i);
      var w := s[i..j];
      assert !AllSpace(s) by { assert !IsSpace(s[i]); }
      assert j > i;
      assert NoSpace(w) by {
        forall k | 0 <= k < |w| ensures !IsSpace(w[k]) {
          assert w[k] == s[i + k];
        }
      }
      assert AllSpace(s[..i]) by {
        forall k | 0 <= k < i ensures IsSpace(s[..i][k]) {
          assert s[..i][k] == s[k];
        }
      }
      assert i + |w| == j;
    }
  }

  /** `s.replace(ch, '')`. */
  function RemoveAll(s: string, ch: char): (r: string)
    ensures ch !in r
    ensures forall c :: c != ch ==> multiset(r)[c] == multiset(s)[c]
    ensures |r| == |s| - multiset(s)[ch]
  {
    if s == [] then []
    else
      assert s == [s[0]] + s[1..];
      if s[0] == ch then RemoveAll(s[1..], ch) else [s[0]] + RemoveAll(s[1..], ch)
  }

  /** `pat` occurs in `s` starting at index `i`. */
  predicate OccursAt(s: string, pat: string, i: int)
  {
    0 <= i && i + |pat| <= |s| && s[i..i + |pat|] == pat
  }

  /** `s.find(pat)`: the first index at which `pat` occurs in `s`, if any. */
  function IndexOf(s: string, pat: string): (r: Option<nat>)
    ensures r.Some? ==> OccursAt(s, pat, r.value)
    ensures r.Some? ==> forall j :: 0 <= j < r.value ==> !OccursAt(s, pat, j)
    ensures r.None? ==> forall j :: !OccursAt(s, pat, j)
  {
    if |s| < |pat| then None
    else if s[..|pat|] == pat then Some(0)
    else
      match IndexOf(s[1..], pat)
      case None =>
        assert forall j :: 1 <= j ==> OccursAt(s, pat, j) ==> OccursAt(s[1..], pat, j - 1);
        None
      case Some(k) =>
        assert forall j :: 1 <= j ==> OccursAt(s, pat, j) ==> OccursAt(s[1..], pat, j - 1);
        assert s[1..][k..k + |pat|] == s[k + 1..k + 1 + |pat|];
        Some(k + 1)
  }

  /** `s.find(ch, start)`: the first index at or after `start` holding `ch`, if any. */
  function FindFrom(s: string, ch: char, start: nat): (r: Option<nat>)
    requires start <= |s|
    ensures r.Some? ==> start <= r.value < |s| && s[r.value] == ch
    ensures r.Some? ==> ch !in s[start..r.value]
    ensures r.None? ==> ch !in s[start..]
    decreases |s| - start
  {
    if start == |s| then None
    else if s[start] == ch then Some(start)
    else
      var r := FindFrom(s, ch, start + 1);
      assert s[start..] == [s[start]] + s[start + 1..];
      assert r.Some? ==> s[start..r.value] == [s[start]] + s[start + 1..r.value];
      r
  }

  /** Python's `a < b` on strings: code-point by code-point, a proper prefix first. */
  predicate Less(a: string, b: string)
  {
    if a == [] then b != []
    else if b == [] then false
    else if a[0] != b[0] then a[0] < b[0]
    else Less(a[1..], b[1..])
  }

  lemma {:induction false} LessIrreflexive(a: string)
    ensures !Less(a, a)
  {
    if a != [] { LessIrreflexive(a[1..]); }
  }

  lemma {:induction false} LessTransitive(a: string, b: string, c: string)
    requires Less(a, b) && Less(b, c)
    ensures Less(a, c)
  {
    if a != [] && b != [] && c != [] && a[0] == b[0] && b[0] == c[0] {
      LessTransitive(a[1..], b[1..], c[1..]);
    }
  }

  /** Two different strings are always ordered one way or the other. */
  lemma {:induction false} LessTotal(a: string, b: string)
    requires a != b
    ensures Less(a, b) || Less(b, a)
  {
    if a != [] && b != [] && a[0] == b[0] {
      assert a == [a[0]] + a[1..] && b == [b[0]] + b[1..];
      LessTotal(a[1..], b[1..]);
    }
  }

  lemma {:induction false} LessAsymmetric(a: string, b: string)
    requires Less(a, b)
    ensures !Less(b, a)
  {
    if a != [] && b != [] && a[0] == b[0] {
      LessAsymmetric(a[1..], b[1..]);
    }
  }
}
