/**
 * The string primitives the Python code relies on: `str.lower()` (ASCII
 * letters only), the `in` substring test, `str.startswith`, `str.split()`
 * with no argument, `str.strip()` with no argument, `", ".join(...)` and
 * Python's ordering of strings by code point (used by `np.unique`).
 */
module Text {

  /** Python's `str.isspace()` for one character (the characters `split()` and `strip()` treat as whitespace). */
  predicate IsSpace(c: char)
  {
    var n := c as int;
    n == 0x20 || 0x09 <= n <= 0x0D || 0x1C <= n <= 0x1F || n == 0x85 || n == 0xA0 || n == 0x1680
    || 0x2000 <= n <= 0x200A || n == 0x2028 || n == 0x2029 || n == 0x202F || n == 0x205F || n == 0x3000
  }

  predicate NoSpace(s: string)
  {
    forall i :: 0 <= i < |s| ==> !IsSpace(s[i])
  }

  predicate AllSpace(s: string)
  {
    forall i :: 0 <= i < |s| ==> IsSpace(s[i])
  }

  function LowerChar(c: char): char
  {
    if 'A' <= c <= 'Z' then (c as int + 32) as char else c
  }

  /** `s.lower()`, restricted to ASCII upper-case letters. */
  function Lower(s: string): (r: string)
    ensures |r| == |s|
    ensures forall i :: 0 <= i < |s| ==> r[i] == LowerChar(s[i])
  {
    if s == [] then [] else [LowerChar(s[0])] + Lower(s[1..])
  }

  lemma {:induction false} LowerIdempotent(s: string)
    ensures Lower(Lower(s)) == Lower(s)
  {
    var l := Lower(s);
    assert forall i :: 0 <= i < |l| ==> Lower(l)[i] == l[i];
  }

  /** Visible ASCII characters are not whitespace. */
  lemma VisibleNoSpace(s: string)
    requires forall i :: 0 <= i < |s| ==> '!' <= s[i] <= '~'
    ensures NoSpace(s)
  {
  }

  /** A string without upper-case letters is its own lower case. */
  lemma LowerOfLowercase(s: string)
    requires forall i :: 0 <= i < |s| ==> !('A' <= s[i] <= 'Z')
    ensures Lower(s) == s
  {
  }

  /** Lowering works piece by piece. */
  lemma LowerAppend(a: string, b: string)
    ensures Lower(a + b) == Lower(a) + Lower(b)
  {
    assert forall i :: 0 <= i < |a + b| ==> Lower(a + b)[i] == (Lower(a) + Lower(b))[i];
  }

  // ---------------------------------------------------------------------------
  // Substrings: Python's `needle in hay`
  // ---------------------------------------------------------------------------

  /** `needle` occurs in `hay` at position `i`, compared from character `k` on. */
  function MatchAt(hay: string, needle: string, i: nat, k: nat): bool
    requires i + |needle| <= |hay| && k <= |needle|
    decreases |needle| - k
  {
    k == |needle| || (hay[i + k] == needle[k] && MatchAt(hay, needle, i, k + 1))
  }

  function ContainsFrom(hay: string, needle: string, i: nat): bool
    decreases |hay| - i
  {
    i + |needle| <= |hay| && (MatchAt(hay, needle, i, 0) || ContainsFrom(hay, needle, i + 1))
  }

  /** `needle in hay` for Python strings. */
  function Contains(hay: string, needle: string): bool
  {
    ContainsFrom(hay, needle, 0)
  }

  ghost predicate OccursAt(hay: string, needle: string, i: int)
  {
    0 <= i && i + |needle| <= |hay| && hay[i..i + |needle|] == needle
  }

  lemma {:induction false} MatchAtIff(hay: string, needle: string, i: nat, k: nat)
    requires i + |needle| <= |hay| && k <= |needle|
    ensures MatchAt(hay, needle, i, k) <==> forall m :: k <= m < |needle| ==> hay[i + m] == needle[m]
    decreases |needle| - k
  {
    if k < |needle| {
      MatchAtIff(hay, needle, i, k + 1);
    }
  }

  lemma {:induction false} ContainsFromIff(hay: string, needle: string, i: nat)
    ensures ContainsFrom(hay, needle, i) <==> exists p :: i <= p && OccursAt(hay, needle, p)
    decreases |hay| - i
  {
    if i + |needle| <= |hay| {
      MatchAtIff(hay, needle, i, 0);
      assert MatchAt(hay, needle, i, 0) <==> OccursAt(hay, needle, i) by {
        if MatchAt(hay, needle, i, 0) {
          assert forall m :: 0 <= m < |needle| ==> hay[i..i + |needle|][m] == needle[m];
        }
        if OccursAt(hay, needle, i) {
          forall m | 0 <= m < |needle| ensures hay[i + m] == needle[m] {
            assert hay[i + m] == hay[i..i + |needle|][m];
          }
        }
      }
      ContainsFromIff(hay, needle, i + 1);
      if exists p :: i <= p && OccursAt(hay, needle, p) {
        var p :| i <= p && OccursAt(hay, needle, p);
        assert p == i || (i + 1 <= p && OccursAt(hay, needle, p));
      }
    }
  }

  /** `Contains` is exactly "occurs at some position". */
  lemma ContainsIff(hay: string, needle: string)
    ensures Contains(hay, needle) <==> exists p :: OccursAt(hay, needle, p)
  {
    ContainsFromIff(hay, needle, 0);
  }

  lemma ContainsAt(hay: string, needle: string, p: int)
    requires OccursAt(hay, needle, p)
    ensures Contains(hay, needle)
  {
    ContainsIff(hay, needle);
  }

  lemma ContainsSelf(s: string)
    ensures Contains(s, s)
  {
    assert s[0..|s|] == s;
    ContainsAt(s, s, 0);
  }

  /** What `needle` is made of must be in `hay` too. */
  lemma ContainsChar(hay: string, needle: string, c: char)
    requires Contains(hay, needle) && c in needle
    ensures c in hay
  {
    ContainsIff(hay, needle);
    var p :| OccursAt(hay, needle, p);
    var m :| 0 <= m < |needle| && needle[m] == c;
    assert hay[p + m] == hay[p..p + |needle|][m];
  }

  /** A piece of a concatenation occurs in it. */
  lemma ContainsMiddle(a: string, b: string, c: string)
    ensures Contains(a + b + c, b)
  {
    var s := a + b + c;
    assert s[|a|..|a| + |b|] == b;
    ContainsAt(s, b, |a|);
  }

  /** Occurrence is transitive: a piece of a piece is a piece. */
  lemma ContainsTrans(a: string, b: string, c: string)
    requires Contains(a, b) && Contains(b, c)
    ensures Contains(a, c)
  {
    ContainsIff(a, b);
    ContainsIff(b, c);
    var p :| OccursAt(a, b, p);
    var q :| OccursAt(b, c, q);
    forall m | 0 <= m < |c| ensures a[p + q + m] == c[m] {
      assert c[m] == b[q..q + |c|][m] == b[q + m];
      assert b[q + m] == a[p..p + |b|][q + m] == a[p + q + m];
    }
    assert a[p + q..p + q + |c|] == c;
    ContainsAt(a, c, p + q);
  }

  lemma ContainsLeft(a: string, b: string, n: string)
    requires Contains(a, n)
    ensures Contains(a + b, n)
  {
    assert a + b == [] + a + b;
    ContainsMiddle([], a, b);
    ContainsTrans(a + b, a, n);
  }

  lemma ContainsRight(a: string, b: string, n: string)
    requires Contains(b, n)
    ensures Contains(a + b, n)
  {
    assert a + b == a + b + [];
    ContainsMiddle(a, b, []);
    ContainsTrans(a + b, b, n);
  }

  /** `s.startswith(p)` */
  predicate StartsWith(s: string, p: string)
  {
    |p| <= |s| && s[..|p|] == p
  }

  // ---------------------------------------------------------------------------
  // `str.split()` with no separator: maximal runs of non-whitespace.
  // ---------------------------------------------------------------------------

  function SkipSpaces(s: string, i: nat): (j: nat)
    requires i <= |s|
    ensures i <= j <= |s|
    ensures forall m :: i <= m < j ==> IsSpace(s[m])
    ensures j == |s| || !IsSpace(s[j])
    decreases |s| - i
  {
    if i < |s| && IsSpace(s[i]) then SkipSpaces(s, i + 1) else i
  }

  function WordEnd(s: string, i: nat): (j: nat)
    requires i <= |s|
    ensures i <= j <= |s|
    ensures forall m :: i <= m < j ==> !IsSpace(s[m])
    ensures j == |s| || IsSpace(s[j])
    decreases |s| - i
  {
    if i < |s| && !IsSpace(s[i]) then WordEnd(s, i + 1) else i
  }

  function SplitFrom(s: string, i: nat): seq<string>
    requires i <= |s|
    decreases |s| - i
  {
    var j := SkipSpaces(s, i);
    if j == |s| then [] else
      var k := WordEnd(s, j);
      [s[j..k]] + SplitFrom(s, k)
  }

  /** `s.split()`: the whitespace-separated words of `s`, empty pieces dropped. */
  function Split(s: string): seq<string>
  {
    SplitFrom(s, 0)
  }

  lemma {:induction false} SplitFromWords(s: string, i: nat)
    requires i <= |s|
    ensures forall w :: w in SplitFrom(s, i) ==> w != [] && NoSpace(w) && Contains(s, w)
    decreases |s| - i
  {
    var j := SkipSpaces(s, i);
    if j < |s| {
      var k := WordEnd(s, j);
      SplitFromWords(s, k);
      assert OccursAt(s, s[j..k], j);
      ContainsAt(s, s[j..k], j);
    }
  }

  /** Every word of `s.split()` is non-empty, free of whitespace and a substring of `s`. */
  lemma SplitWords(s: string)
    ensures forall w :: w in Split(s) ==> w != [] && NoSpace(w) && Contains(s, w)
  {
    SplitFromWords(s, 0);
  }

  /** A string with no word in it (empty or all whitespace) splits into nothing, and only such a string does. */
  lemma SplitEmptyIff(s: string)
    ensures Split(s) == [] <==> AllSpace(s)
  {
    var j := SkipSpaces(s, 0);
    if j < |s| {
      assert !IsSpace(s[j]);
    }
  }

  /** A single word splits into itself. */
  lemma SplitWord(w: string)
    requires w != [] && NoSpace(w)
    ensures Split(w) == [w]
  {
    assert SkipSpaces(w, 0) == 0;
    var k := WordEnd(w, 0);
    assert k == |w|;
    assert w[0..k] == w;
    assert SkipSpaces(w, k) == |w|;
    assert SplitFrom(w, k) == [];
    assert SplitFrom(w, 0) == [w[0..k]] + SplitFrom(w, k);
  }

  /** A piece of a word has no whitespace either. */
  lemma NoSpaceInside(w: string, x: string)
    requires NoSpace(w) && Contains(w, x)
    ensures NoSpace(x)
  {
    forall i | 0 <= i < |x| ensures !IsSpace(x[i]) {
      ContainsChar(w, x, x[i]);
    }
  }

  lemma {:induction false} SplitFromLast(s: string, w: string, i: nat)
    requires w != [] && NoSpace(w) && i <= |s| + 1
    ensures w in SplitFrom(s + " " + w, i)
    decreases |s| + 1 - i
  {
    var u := s + " " + w;
    assert IsSpace(u[|s|]);
    var j := SkipSpaces(u, i);
    assert j < |u| && !IsSpace(u[j]) by {
      if j >= |s| + 1 { assert u[|s| + 1] == w[0]; }
    }
    var k := WordEnd(u, j);
    if j <= |s| {
      assert k <= |s|;
      SplitFromLast(s, w, k);
    } else {
      assert j == |s| + 1;
      assert u[j..k] == w;
    }
  }

  /** The last word of a sentence, after a space, is one of its words. */
  lemma SplitLast(s: string, w: string)
    requires w != [] && NoSpace(w)
    ensures w in Split(s + " " + w)
  {
    SplitFromLast(s, w, 0);
  }

  // ---------------------------------------------------------------------------
  // `str.strip()` with no argument
  // ---------------------------------------------------------------------------

  /** The end of `s[..j]` once trailing whitespace is dropped, but not below `lo`. */
  function TrimEnd(s: string, lo: nat, j: nat): (k: nat)
    requires lo <= j <= |s|
    ensures lo <= k <= j
    ensures forall m :: k <= m < j ==> IsSpace(s[m])
    ensures k == lo || !IsSpace(s[k - 1])
    decreases j
  {
    if j > lo && IsSpace(s[j - 1]) then TrimEnd(s, lo, j - 1) else j
  }

  /** `s.strip()`: `s` without its leading and trailing whitespace. */
  function Strip(s: string): (r: string)
    ensures |r| <= |s|
    ensures r == [] || (!IsSpace(r[0]) && !IsSpace(r[|r| - 1]))
  {
    var i := SkipSpaces(s, 0);
    s[i..TrimEnd(s, i, |s|)]
  }

  /** What `Strip` drops is whitespace at the two ends, and nothing else. */
  lemma StripSlice(s: string)
    ensures exists i, j :: 0 <= i <= j <= |s| && Strip(s) == s[i..j] && AllSpace(s[..i]) && AllSpace(s[j..])
  {
    var i := SkipSpaces(s, 0);
    var j := TrimEnd(s, i, |s|);
    assert AllSpace(s[..i]) && AllSpace(s[j..]);
  }

  /** `not s.strip()`: the string holds nothing but whitespace. */
  predicate IsBlank(s: string)
  {
    Strip(s) == ""
  }

  lemma BlankIff(s: string)
    ensures IsBlank(s) <==> AllSpace(s)
  {
    var r := Strip(s);
    StripSlice(s);
    var i, j :| 0 <= i <= j <= |s| && r == s[i..j] && AllSpace(s[..i]) && AllSpace(s[j..]);
    if r == [] {
      assert i == j;
      forall m | 0 <= m < |s| ensures IsSpace(s[m]) {
        if m < i { assert s[m] == s[..i][m]; } else { assert s[m] == s[j..][m - j]; }
      }
    } else {
      assert s[i] == r[0];
    }
  }

  // ---------------------------------------------------------------------------
  // `sep.join(xs)`
  // ---------------------------------------------------------------------------

  function Join(xs: seq<string>, sep: string): string
  {
    if |xs| == 0 then "" else if |xs| == 1 then xs[0] else xs[0] + sep + Join(xs[1..], sep)
  }

  /** Every joined piece appears in the result. */
  lemma {:induction false} JoinContains(xs: seq<string>, sep: string, x: string)
    requires x in xs
    ensures Contains(Join(xs, sep), x)
  {
    if |xs| == 1 {
      ContainsSelf(x);
    } else if x == xs[0] {
      ContainsSelf(x);
      ContainsLeft(xs[0], sep + Join(xs[1..], sep), x);
      assert xs[0] + sep + Join(xs[1..], sep) == xs[0] + (sep + Join(xs[1..], sep));
    } else {
      JoinContains(xs[1..], sep, x);
      ContainsRight(xs[0] + sep, Join(xs[1..], sep), x);
    }
  }

  // ---------------------------------------------------------------------------
  // Python's `<` on strings: code-point lexicographic order
  // ---------------------------------------------------------------------------

  predicate LexLess(a: string, b: string)
  {
    if |a| == 0 then |b| > 0
    else if |b| == 0 then false
    else if a[0] != b[0] then a[0] < b[0]
    else LexLess(a[1..], b[1..])
  }

  lemma {:induction false} LexIrreflexive(a: string)
    ensures !LexLess(a, a)
  {
    if |a| > 0 { LexIrreflexive(a[1..]); }
  }

  lemma {:induction false} LexTransitive(a: string, b: string, c: string)
    requires LexLess(a, b) && LexLess(b, c)
    ensures LexLess(a, c)
  {
    if |a| > 0 && |b| > 0 && |c| > 0 && a[0] == b[0] && b[0] == c[0] {
      LexTransitive(a[1..], b[1..], c[1..]);
    }
  }

  /** Any two different strings are ordered one way or the other. */
  lemma {:induction false} LexTotal(a: string, b: string)
    requires a != b
    ensures LexLess(a, b) || LexLess(b, a)
  {
    if |a| > 0 && |b| > 0 && a[0] == b[0] {
      assert a == [a[0]] + a[1..] && b == [b[0]] + b[1..];
      LexTotal(a[1..], b[1..]);
    }
  }
}
