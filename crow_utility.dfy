/**
 * Crow's string helpers embedded in sanitize-filepath.c: `normalize_path`,
 * `string_equals` and `trim`. Character classes are those of the C locale:
 * `toupper` maps only `a`-`z`, and `isspace` holds for space, tab, line
 * feed, vertical tab, form feed and carriage return.
 */
module CrowUtility {
  /** `toupper` in the C locale. */
  function Upper(c: char): (u: char)
    ensures 'a' <= c <= 'z' ==> u as int == c as int - 32
    ensures !('a' <= c <= 'z') ==> u == c
  {
    if 'a' <= c <= 'z' then (c as int - 32) as char else c
  }

  /** `isspace` in the C locale. */
  predicate IsSpace(c: char) {
    c == ' ' || c == '\t' || c == '\n' || c as int == 0x0B || c as int == 0x0C || c == '\r'
  }

  // ---------------------------------------------------------------------
  // normalize_path

  /** `directoryPath` with every backslash turned into a slash. */
  function Slashed(p: string): (r: string)
    ensures |r| == |p|
  {
    seq(|p|, k requires 0 <= k < |p| => if p[k] == '\\' then '/' else p[k])
  }

  /**
   * What `normalize_path` returns: the slashed path, with a slash appended
   * when it is not empty and does not already end in one.
   */
  function NormalizedPath(p: string): string {
    var s := Slashed(p);
    if |s| > 0 && s[|s| - 1] != '/' then s + "/" else s
  }

  /**
   * `normalize_path`: `std::replace` of `\` by `/` over a copy of the
   * path, then the trailing slash.
   */
  method NormalizePath(directoryPath: string) returns (normalizedPath: string)
    ensures normalizedPath == NormalizedPath(directoryPath)
  {
    var a := new char[|directoryPath|](k requires 0 <= k < |directoryPath| => directoryPath[k]);
    var k := 0;
    while k < a.Length
      invariant 0 <= k <= a.Length
      invariant forall m :: 0 <= m < k ==> a[m] == Slashed(directoryPath)[m]
      invariant forall m :: k <= m < a.Length ==> a[m] == directoryPath[m]
    {
      if a[k] == '\\' {
        a[k] := '/';
      }
      k := k + 1;
    }
    normalizedPath := a[..];
    assert normalizedPath == Slashed(directoryPath);
    if |normalizedPath| > 0 && normalizedPath[|normalizedPath| - 1] != '/' {
      normalizedPath := normalizedPath + "/";
    }
  }

  /**
   * A normalized path keeps every character of the input except
   * backslashes, which become slashes, holds no backslash, and ends in a
   * slash unless it is empty; it is at most one character longer.
   */
  lemma NormalizedPathShape(p: string)
    ensures var r := NormalizedPath(p);
      (|r| == |p| || |r| == |p| + 1) &&
      (forall k :: 0 <= k < |p| ==> r[k] == (if p[k] == '\\' then '/' else p[k])) &&
      (forall k :: 0 <= k < |r| ==> r[k] != '\\') &&
      (|r| == 0 <==> |p| == 0) &&
      (|r| > 0 ==> r[|r| - 1] == '/')
  {
  }

  /** Normalizing a normalized path changes nothing. */
  lemma NormalizedPathIdempotent(p: string)
    ensures NormalizedPath(NormalizedPath(p)) == NormalizedPath(p)
  {
    var r := NormalizedPath(p);
    NormalizedPathShape(p);
    assert Slashed(r) == r;
  }

  /** The expectations of sanitize.cpp:170-171. */
  lemma NormalizedPathExamples()
    ensures NormalizedPath("/abc/def") == "/abc/def/"
    ensures NormalizedPath("path\\to\\directory") == "path/to/directory/"
  {
    assert Slashed("/abc/def") == "/abc/def";
    assert Slashed("path\\to\\directory") == "path/to/directory";
  }

  // ---------------------------------------------------------------------
  // string_equals

  /**
   * What `string_equals(l, r, case_sensitive)` answers: the lengths agree
   * and so does every position, compared as is or after `toupper`.
   */
  predicate StringEquals(l: string, r: string, caseSensitive: bool) {
    |l| == |r| &&
    forall i :: 0 <= i < |l| ==> if caseSensitive then l[i] == r[i] else Upper(l[i]) == Upper(r[i])
  }

  /** `string_equals`: a length test, then one comparison per position, returning at the first mismatch. */
  method StringEqualsOf(l: string, r: string, caseSensitive: bool) returns (equal: bool)
    ensures equal <==> StringEquals(l, r, caseSensitive)
  {
    if |l| != |r| {
      return false;
    }
    var i := 0;
    while i < |l|
      invariant 0 <= i <= |l|
      invariant forall k :: 0 <= k < i ==> if caseSensitive then l[k] == r[k] else Upper(l[k]) == Upper(r[k])
    {
      if caseSensitive {
        if l[i] != r[i] {
          return false;
        }
      } else {
        if Upper(l[i]) != Upper(r[i]) {
          return false;
        }
      }
      i := i + 1;
    }
    return true;
  }

  /** The upper-cased copy of a string. */
  function UpperString(s: string): (u: string)
    ensures |u| == |s| && forall k :: 0 <= k < |s| ==> u[k] == Upper(s[k])
  {
    seq(|s|, k requires 0 <= k < |s| => Upper(s[k]))
  }

  /**
   * Compared case-sensitively, two strings are equal exactly when they are
   * the same; otherwise exactly when their upper-cased copies are.
   */
  lemma StringEqualsMeaning(l: string, r: string)
    ensures StringEquals(l, r, true) <==> l == r
    ensures StringEquals(l, r, false) <==> UpperString(l) == UpperString(r)
  {
    if UpperString(l) == UpperString(r) {
      forall i | 0 <= i < |l| ensures Upper(l[i]) == Upper(r[i]) {
        assert UpperString(l)[i] == UpperString(r)[i];
      }
    }
  }

  /** Case-insensitive equality is an equivalence, and case-sensitive equality implies it. */
  lemma StringEqualsEquivalence(a: string, b: string, c: string, caseSensitive: bool)
    ensures StringEquals(a, a, caseSensitive)
    ensures StringEquals(a, b, caseSensitive) ==> StringEquals(b, a, caseSensitive)
    ensures StringEquals(a, b, caseSensitive) && StringEquals(b, c, caseSensitive) ==> StringEquals(a, c, caseSensitive)
    ensures StringEquals(a, b, true) ==> StringEquals(a, b, false)
  {
  }

  // ---------------------------------------------------------------------
  // trim

  /** Every character of `s` is white space. */
  predicate AllSpace(s: string) {
    forall k :: 0 <= k < |s| ==> IsSpace(s[k])
  }

  /** The index of the first non-space character of `v`, or `|v|`. */
  function FirstNonSpace(v: string): (b: nat)
    ensures b <= |v| && AllSpace(v[..b]) && (b < |v| ==> !IsSpace(v[b]))
    decreases |v|
  {
    if |v| == 0 || !IsSpace(v[0]) then 0
    else
      var b := 1 + FirstNonSpace(v[1..]);
      assert v[..b] == [v[0]] + v[1..][..b - 1];
      b
  }

  /** One past the index of the last non-space character of `v`, or 0. */
  function LastNonSpaceEnd(v: string): (e: nat)
    ensures e <= |v| && AllSpace(v[e..]) && (e > 0 ==> !IsSpace(v[e - 1]))
    decreases |v|
  {
    if |v| == 0 || !IsSpace(v[|v| - 1]) then |v|
    else
      var e := LastNonSpaceEnd(v[..|v| - 1]);
      assert v[e..] == v[..|v| - 1][e..] + [v[|v| - 1]];
      e
  }

  /** What `trim(v)` returns: `v` without its leading and trailing white space. */
  function Trimmed(v: string): string {
    var b := FirstNonSpace(v);
    if b == |v| then "" else v[b..LastNonSpaceEnd(v)]
  }

  /**
   * `trim`: scans forward for the first non-space character (answering
   * `""` when there is none), then backward for the last one, and returns
   * the substring between them.
   */
  method Trim(v: string) returns (t: string)
    ensures t == Trimmed(v)
  {
    if |v| == 0 {
      return "";
    }
    var begin, end := 0, |v|;
    var i := 0;
    while i < |v|
      invariant 0 <= i <= |v| && AllSpace(v[..i])
    {
      if !IsSpace(v[i]) {
        begin := i;
        break;
      }
      i := i + 1;
    }
    if i == |v| {
      FirstNonSpaceOfSpaces(v);
      return "";
    }
    FirstNonSpaceIs(v, i);
    i := |v|;
    while i > 0
      invariant 0 <= i <= |v| && AllSpace(v[i..])
    {
      if !IsSpace(v[i - 1]) {
        end := i;
        break;
      }
      i := i - 1;
    }
    LastNonSpaceEndIs(v, end);
    t := v[begin..end];
  }

  /** Only an all-space string has no first non-space character. */
  lemma FirstNonSpaceOfSpaces(v: string)
    requires AllSpace(v)
    ensures FirstNonSpace(v) == |v|
  {
  }

  /** A first non-space index found by scanning is the one `FirstNonSpace` names. */
  lemma FirstNonSpaceIs(v: string, i: nat)
    requires i < |v| && AllSpace(v[..i]) && !IsSpace(v[i])
    ensures FirstNonSpace(v) == i
  {
    var b := FirstNonSpace(v);
  }

  /** An end index found by scanning backward is the one `LastNonSpaceEnd` names. */
  lemma LastNonSpaceEndIs(v: string, e: nat)
    requires 0 < e <= |v| && AllSpace(v[e..]) && !IsSpace(v[e - 1])
    ensures LastNonSpaceEnd(v) == e
  {
  }

  /**
   * `v` is white space, then the trimmed string, then white space; the
   * trimmed string neither starts nor ends with white space.
   */
  lemma TrimmedShape(v: string)
    ensures var t := Trimmed(v);
      (exists b :: 0 <= b <= |v| - |t| && v[b..b + |t|] == t && AllSpace(v[..b]) && AllSpace(v[b + |t|..])) &&
      (|t| > 0 ==> !IsSpace(t[0]) && !IsSpace(t[|t| - 1]))
  {
    var t, b := Trimmed(v), FirstNonSpace(v);
    if b == |v| {
      assert v[b..b + |t|] == t;
    } else {
      var e := LastNonSpaceEnd(v);
      assert v[b..b + |t|] == t;
    }
  }

  /** A string that neither starts nor ends with white space is its own trim. */
  lemma TrimmedFixes(t: string)
    requires |t| > 0 && !IsSpace(t[0]) && !IsSpace(t[|t| - 1])
    ensures Trimmed(t) == t
  {
    FirstNonSpaceIs(t, 0);
    LastNonSpaceEndIs(t, |t|);
    assert t[0..|t|] == t;
  }

  /** Trimming a trimmed string changes nothing. */
  lemma TrimmedIdempotent(v: string)
    ensures Trimmed(Trimmed(v)) == Trimmed(v)
  {
    TrimmedShape(v);
    if |Trimmed(v)| > 0 {
      TrimmedFixes(Trimmed(v));
    }
  }

  /** Exactly the strings of white space trim to nothing. */
  lemma TrimmedEmpty(v: string)
    ensures Trimmed(v) == "" <==> AllSpace(v)
  {
    if AllSpace(v) {
      FirstNonSpaceOfSpaces(v);
    }
  }
}
