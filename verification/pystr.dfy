/** The Python `str` operations the extractor relies on: `strip()` with no
    argument, `isspace()`, and the substring test `needle in haystack`. */
module PyStr {

  /** The characters Python's `str.isspace` accepts: bidirectional class
      WS, B or S, or general category Zs. */
  predicate IsSpaceChar(c: char) {
    || '\t' <= c <= '\r'
    || '\U{1C}' <= c <= ' '
    || c == '\U{85}' || c == '\U{A0}' || c == '\U{1680}'
    || '\U{2000}' <= c <= '\U{200A}'
    || c == '\U{2028}' || c == '\U{2029}' || c == '\U{202F}'
    || c == '\U{205F}' || c == '\U{3000}'
  }

  /** Every character is whitespace; holds for the empty string. */
  predicate AllSpace(s: string) {
    forall k :: 0 <= k < |s| ==> IsSpaceChar(s[k])
  }

  /** `s.isspace()`: true exactly for a non-empty string of whitespace. */
  predicate IsSpace(s: string) {
    |s| > 0 && AllSpace(s)
  }

  /** Leading whitespace removed: `r` is a suffix of `s`, everything cut off
      is whitespace, and `r` does not start with whitespace. */
  function StripLeft(s: string): (r: string)
    ensures |r| <= |s| && r == s[|s| - |r|..]
    ensures AllSpace(s[..|s| - |r|])
    ensures r == [] || !IsSpaceChar(r[0])
    decreases |s|
  {
    if |s| > 0 && IsSpaceChar(s[0]) then
      var r := StripLeft(s[1..]);
      assert s[1..][|s| - 1 - |r|..] == s[|s| - |r|..];
      assert s[..|s| - |r|] == [s[0]] + s[1..][..|s| - 1 - |r|];
      r
    else s
  }

  /** Trailing whitespace removed: `r` is a prefix of `s`, everything cut
      off is whitespace, and `r` does not end with whitespace. */
  function StripRight(s: string): (r: string)
    ensures |r| <= |s| && r == s[..|r|]
    ensures AllSpace(s[|r|..])
    ensures r == [] || !IsSpaceChar(r[|r| - 1])
    decreases |s|
  {
    if |s| > 0 && IsSpaceChar(s[|s| - 1]) then
      var r := StripRight(s[..|s| - 1]);
      assert s[..|s| - 1][..|r|] == s[..|r|];
      assert s[|r|..] == s[..|s| - 1][|r|..] + [s[|s| - 1]];
      r
    else s
  }

  /** No whitespace at either end. */
  predicate Trimmed(s: string) {
    s == [] || (!IsSpaceChar(s[0]) && !IsSpaceChar(s[|s| - 1]))
  }

  /** `s.strip()`: whitespace removed from both ends. */
  function Strip(s: string): (r: string)
    ensures Trimmed(r)
  {
    StripRight(StripLeft(s))
  }

  /** `r` is a contiguous part of `s` with only whitespace around it. */
  ghost predicate Core(s: string, r: string) {
    exists i, j :: 0 <= i <= j <= |s| && r == s[i..j] && AllSpace(s[..i]) && AllSpace(s[j..])
  }

  /** What `strip()` removes is whitespace, from the two ends only. */
  lemma StripIsCore(s: string)
    ensures Core(s, Strip(s))
  {
    var t := StripLeft(s);
    var r := StripRight(t);
    var i := |s| - |t|;
    assert r == s[i..i + |r|];
    assert s[i + |r|..] == t[|r|..];
  }

  /** A string already without whitespace at its ends is left unchanged. */
  lemma StripTrimmed(v: string)
    requires Trimmed(v)
    ensures Strip(v) == v
  {
    assert StripLeft(v) == v;
  }

  /** A string of whitespace only strips to the empty string. */
  lemma {:induction false} StripBlank(s: string)
    requires AllSpace(s)
    ensures Strip(s) == []
  {
    assert s + [] == s;
    StripLeftUnique(s, []);
  }

  lemma AllSpaceConcat(a: string, b: string)
    requires AllSpace(a) && AllSpace(b)
    ensures AllSpace(a + b)
  {
    forall k | 0 <= k < |a + b| ensures IsSpaceChar((a + b)[k]) {
      if k >= |a| { assert (a + b)[k] == b[k - |a|]; }
    }
  }

  /** The characterisation of `strip()` is exact: any trimmed core between
      two whitespace runs is the stripped string. */
  lemma {:induction false} StripUnique(a: string, v: string, b: string)
    requires AllSpace(a) && AllSpace(b) && Trimmed(v)
    ensures Strip(a + v + b) == v
  {
    if v == [] {
      assert a + v + b == a + b;
      AllSpaceConcat(a, b);
      StripBlank(a + b);
    } else {
      assert StripLeft(a + v + b) == v + b by {
        assert a + v + b == a + (v + b);
        assert (v + b)[0] == v[0];
        StripLeftUnique(a, v + b);
      }
      StripRightUnique(v, b);
    }
  }

  lemma {:induction false} StripLeftUnique(a: string, w: string)
    requires AllSpace(a)
    requires w == [] || !IsSpaceChar(w[0])
    ensures StripLeft(a + w) == w
    decreases |a|
  {
    if a != [] {
      assert (a + w)[0] == a[0];
      assert (a + w)[1..] == a[1..] + w;
      StripLeftUnique(a[1..], w);
    } else {
      assert a + w == w;
    }
  }

  lemma {:induction false} StripRightUnique(v: string, b: string)
    requires AllSpace(b)
    requires v == [] || !IsSpaceChar(v[|v| - 1])
    ensures StripRight(v + b) == v
    decreases |b|
  {
    if b != [] {
      assert (v + b)[|v + b| - 1] == b[|b| - 1];
      assert (v + b)[..|v + b| - 1] == v + b[..|b| - 1];
      StripRightUnique(v, b[..|b| - 1]);
    } else {
      assert v + b == v;
    }
  }

  /** `strip()` is idempotent. */
  lemma StripIdempotent(s: string)
    ensures Strip(Strip(s)) == Strip(s)
  {
    StripTrimmed(Strip(s));
  }

  /** A stripped string never passes `isspace()`. */
  lemma StrippedNotSpace(s: string)
    ensures !IsSpace(Strip(s))
  {
  }

  /** `needle in haystack` for strings: some window of the haystack equals
      the needle. */
  ghost predicate OccursAt(needle: string, haystack: string, i: int) {
    0 <= i && i + |needle| <= |haystack| && haystack[i..i + |needle|] == needle
  }

  /** The substring test, scanning windows left to right. */
  function Contains(haystack: string, needle: string): (r: bool)
    ensures r <==> exists i :: OccursAt(needle, haystack, i)
    decreases |haystack|
  {
    if |needle| > |haystack| then
      assert forall i :: !OccursAt(needle, haystack, i);
      false
    else if haystack[..|needle|] == needle then
      assert OccursAt(needle, haystack, 0);
      true
    else
      var r := Contains(haystack[1..], needle);
      ContainsShift(haystack, needle);
      r
  }

  lemma ContainsShift(haystack: string, needle: string)
    requires |haystack| > 0 && |needle| <= |haystack| && haystack[..|needle|] != needle
    ensures (exists i :: OccursAt(needle, haystack, i)) <==> (exists i :: OccursAt(needle, haystack[1..], i))
  {
    if i :| OccursAt(needle, haystack, i) {
      assert i != 0;
      assert haystack[1..][i - 1..i - 1 + |needle|] == haystack[i..i + |needle|];
      assert OccursAt(needle, haystack[1..], i - 1);
    }
    if i :| OccursAt(needle, haystack[1..], i) {
      assert haystack[1..][i..i + |needle|] == haystack[i + 1..i + 1 + |needle|];
      assert OccursAt(needle, haystack, i + 1);
    }
  }

  /** The empty haystack contains no non-empty needle; in particular a
      missing attribute, read as `""`, never contains one. */
  lemma EmptyContainsNothing(needle: string)
    requires |needle| > 0
    ensures !Contains("", needle)
  {
  }
}
