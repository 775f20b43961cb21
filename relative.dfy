/**
 * The relative and absolute path builders of sanitize-filepath.c:
 * `fz_mk_relative_path`, `fz_is_absolute_path` and
 * `fz_mk_absolute_path_using_absolute_base`.
 *
 * `fz_strrcspn` is not part of this model: the two offsets it yields for
 * the base path, `len_of_cmp_dirpath` and `len_of_cmp_drivespec`, are
 * parameters (`lenDir`, `lenDrive`).
 */
module MuRelative {
  import opened CStrings
  import MuNormalize
  import MuSanitize

  /** The separator the comparison sees: `\` reads as `/`. */
  function Unslash(c: char): char {
    if c == '\\' then '/' else c
  }

  predicate IsSeparator(c: char) {
    c == '/' || c == '\\'
  }

  /** Position `k` of `a` and `b` agrees, separators of either style being equal. */
  predicate SameAt(a: string, b: string, k: nat)
    requires k <= |a| && k <= |b|
  {
    Unslash(At(a, k)) == Unslash(At(b, k))
  }

  /** `a` and `b` agree on positions `0..n`, the byte at `n` included. */
  predicate AgreeThrough(a: string, b: string, n: nat) {
    n <= |a| && n <= |b| && forall k :: 0 <= k <= n ==> SameAt(a, b, k)
  }

  /**
   * The comparison loop from `pos` on, with `cpl` the last separator it
   * matched: it stops at the first mismatch or after `lenDir`. Reading
   * `a[pos]` stays within `a`, since the terminator of `a` only matches
   * the terminator of `b`, which lies past `lenDir`.
   */
  function Scan(a: string, b: string, lenDir: nat, pos: nat, cpl: nat): (r: nat)
    requires NoNul(b) && lenDir <= |b| && pos <= lenDir + 1 && (pos <= lenDir ==> pos <= |a|)
    decreases lenDir + 1 - pos
  {
    if pos == lenDir + 1 then cpl
    else if !SameAt(a, b, pos) then cpl
    else Scan(a, b, lenDir, pos + 1, if Unslash(At(a, pos)) == '/' then pos else cpl)
  }

  /** `common_prefix_len`. */
  function CommonPrefix(a: string, b: string, lenDir: nat): (cpl: nat)
    requires NoNul(b) && lenDir <= |b|
    ensures cpl <= lenDir && cpl <= |a|
  {
    ScanBounds(a, b, lenDir, 0, 0);
    Scan(a, b, lenDir, 0, 0)
  }

  /** The number of separators in `s[i..j]`. */
  function SepsIn(s: string, i: nat, j: nat): nat
    requires i <= j <= |s|
    decreases j
  {
    if j == i then 0 else SepsIn(s, i, j - 1) + (if IsSeparator(s[j - 1]) then 1 else 0)
  }

  /** `strpbrk(s + from, "\\/")`: the first separator at or after `from`. */
  function NextSeparator(s: string, from: nat): (r: Option<nat>)
    requires from <= |s|
    ensures r.Some? ==> from <= r.value < |s| && IsSeparator(s[r.value])
    ensures r.Some? ==> SepsIn(s, from, r.value) == 0
    ensures r.None? ==> SepsIn(s, from, |s|) == 0
    decreases |s| - from
  {
    if from == |s| then None
    else if IsSeparator(s[from]) then Some(from)
    else
      var r := NextSeparator(s, from + 1);
      SepsFront(s, from, if r.Some? then r.value else |s|);
      r
  }

  /** Counting from the front: the first byte, then the rest. */
  lemma {:induction false} SepsFront(s: string, i: nat, j: nat)
    requires i < j <= |s|
    ensures SepsIn(s, i, j) == (if IsSeparator(s[i]) then 1 else 0) + SepsIn(s, i + 1, j)
    decreases j
  {
    if j > i + 1 {
      SepsFront(s, i, j - 1);
    }
  }

  lemma {:induction false} SepsSplit(s: string, i: nat, k: nat, j: nat)
    requires i <= k <= j <= |s|
    ensures SepsIn(s, i, j) == SepsIn(s, i, k) + SepsIn(s, k, j)
    decreases j
  {
    if j > k {
      SepsSplit(s, i, k, j - 1);
    }
  }

  /** `n` copies of `w`. */
  function Repeat(w: string, n: nat): (r: string)
    ensures |r| == n * |w|
  {
    if n == 0 then [] else Repeat(w, n - 1) + w
  }

  /**
   * How many `../` the walk-up emits: when the base has a byte at the
   * common prefix and its directory part goes on past it, one for the
   * byte at the prefix, one per separator after it, and one more.
   */
  function DotDots(b: string, cpl: nat, lenDir: nat): nat
    requires cpl <= lenDir <= |b|
  {
    if At(b, cpl) != NUL && lenDir > cpl then SepsIn(b, cpl + 1, |b|) + 2 else 0
  }

  /** `remainder`: the target past the common prefix, with its first byte skipped. */
  function Remainder(a: string, cpl: nat): string
    requires cpl <= |a|
  {
    if cpl < |a| then a[cpl + 1..] else []
  }

  /**
   * The string `fz_mk_relative_path` prints: the walk-up and the
   * remainder when the common prefix reaches the drive spec, the target
   * itself otherwise.
   */
  function Relative(a: string, b: string, lenDir: nat, lenDrive: nat): string
    requires NoNul(b) && lenDir <= |b|
  {
    var cpl := CommonPrefix(a, b, lenDir);
    if cpl >= lenDrive then
      var dots := Repeat("../", DotDots(b, cpl, lenDir));
      var rem := Remainder(a, cpl);
      if rem == [] && dots != [] then dots[..|dots| - 1] else dots + rem
    else a
  }

  // ---------------------------------------------------------------------
  // What the comparison finds.

  lemma {:induction false} ScanBounds(a: string, b: string, lenDir: nat, pos: nat, cpl: nat)
    requires NoNul(b) && lenDir <= |b| && pos <= lenDir + 1 && (pos <= lenDir ==> pos <= |a|)
    requires cpl <= pos && cpl <= |a|
    ensures var r := Scan(a, b, lenDir, pos, cpl); r == cpl || (r <= lenDir && r <= |a|)
    decreases lenDir + 1 - pos
  {
    if pos < lenDir + 1 && SameAt(a, b, pos) {
      if pos + 1 <= lenDir {
        assert pos < |a|;
      }
      ScanBounds(a, b, lenDir, pos + 1, if Unslash(At(a, pos)) == '/' then pos else cpl);
    }
  }

  /** The separators a scan from `pos` can still match, given what it matched so far. */
  lemma {:induction false} ScanFinds(a: string, b: string, lenDir: nat, pos: nat, cpl: nat)
    requires NoNul(b) && lenDir <= |b| && pos <= lenDir + 1 && (pos <= lenDir ==> pos <= |a|)
    requires pos == 0 || AgreeThrough(a, b, pos - 1)
    requires cpl == 0 || (cpl < pos && Unslash(At(b, cpl)) == '/')
    requires forall q :: cpl < q < pos && Unslash(At(b, q)) == '/' ==> false
    ensures var r := Scan(a, b, lenDir, pos, cpl);
      (r == 0 || (AgreeThrough(a, b, r) && Unslash(At(b, r)) == '/'))
      && forall q :: r < q <= lenDir && AgreeThrough(a, b, q) ==> Unslash(At(b, q)) != '/'
    decreases lenDir + 1 - pos
  {
    var r := Scan(a, b, lenDir, pos, cpl);
    if pos == lenDir + 1 || !SameAt(a, b, pos) {
      assert r == cpl;
      if cpl != 0 {
        assert AgreeThrough(a, b, cpl) by {
          assert forall k :: 0 <= k <= cpl ==> SameAt(a, b, k) by {
            assert AgreeThrough(a, b, pos - 1);
          }
        }
      }
      forall q | r < q <= lenDir && AgreeThrough(a, b, q)
        ensures Unslash(At(b, q)) != '/'
      {
      }
    } else {
      var cpl' := if Unslash(At(a, pos)) == '/' then pos else cpl;
      if pos + 1 <= lenDir {
        assert pos < |a|;
      }
      assert AgreeThrough(a, b, pos) by {
        if pos > 0 {
          assert AgreeThrough(a, b, pos - 1);
        }
      }
      ScanFinds(a, b, lenDir, pos + 1, cpl');
    }
  }

  /**
   * `common_prefix_len` is 0 or a position where both paths hold a
   * separator after agreeing byte for byte (`\` and `/` alike); no later
   * such position up to `lenDir` exists.
   */
  lemma CommonPrefixIsLastSharedSeparator(a: string, b: string, lenDir: nat)
    requires NoNul(b) && lenDir <= |b|
    ensures var cpl := CommonPrefix(a, b, lenDir);
      (cpl == 0 || (AgreeThrough(a, b, cpl) && Unslash(At(b, cpl)) == '/'))
      && forall q :: cpl < q <= lenDir && AgreeThrough(a, b, q) ==> Unslash(At(b, q)) != '/'
  {
    ScanFinds(a, b, lenDir, 0, 0);
  }

  // ---------------------------------------------------------------------
  // What the relative path looks like.

  lemma {:induction false} ScanUnixified(a: string, b: string, lenDir: nat, pos: nat, cpl: nat)
    requires NoNul(b) && lenDir <= |b| && pos <= lenDir + 1 && (pos <= lenDir ==> pos <= |a|)
    ensures NoNul(MuNormalize.Unixify(b))
    ensures Scan(MuNormalize.Unixify(a), MuNormalize.Unixify(b), lenDir, pos, cpl) == Scan(a, b, lenDir, pos, cpl)
    decreases lenDir + 1 - pos
  {
    var a', b' := MuNormalize.Unixify(a), MuNormalize.Unixify(b);
    if pos < lenDir + 1 {
      assert Unslash(At(a', pos)) == Unslash(At(a, pos));
      assert Unslash(At(b', pos)) == Unslash(At(b, pos));
      if SameAt(a, b, pos) {
        ScanUnixified(a, b, lenDir, pos + 1, if Unslash(At(a, pos)) == '/' then pos else cpl);
      }
    }
  }

  lemma {:induction false} SepsInUnixified(s: string, i: nat, j: nat)
    requires i <= j <= |s|
    ensures SepsIn(MuNormalize.Unixify(s), i, j) == SepsIn(s, i, j)
    decreases j
  {
    if j > i {
      SepsInUnixified(s, i, j - 1);
    }
  }

  /**
   * Backslashes and slashes are interchangeable: on unixified paths the
   * result is the unixified result.
   */
  lemma RelativeUnixified(a: string, b: string, lenDir: nat, lenDrive: nat)
    requires NoNul(b) && lenDir <= |b|
    ensures NoNul(MuNormalize.Unixify(b))
    ensures Relative(MuNormalize.Unixify(a), MuNormalize.Unixify(b), lenDir, lenDrive)
      == MuNormalize.Unixify(Relative(a, b, lenDir, lenDrive))
  {
    var a', b' := MuNormalize.Unixify(a), MuNormalize.Unixify(b);
    ScanUnixified(a, b, lenDir, 0, 0);
    var cpl := CommonPrefix(a, b, lenDir);
    assert CommonPrefix(a', b', lenDir) == cpl;
    if cpl >= lenDrive {
      if cpl < |b| {
        SepsInUnixified(b, cpl + 1, |b|);
      }
      assert DotDots(b', cpl, lenDir) == DotDots(b, cpl, lenDir);
      var dots := Repeat("../", DotDots(b, cpl, lenDir));
      RepeatDotDotBytes(DotDots(b, cpl, lenDir));
      var rem := Remainder(a, cpl);
      assert Remainder(a', cpl) == MuNormalize.Unixify(rem);
      if rem == [] && dots != [] {
        assert MuNormalize.Unixify(dots[..|dots| - 1]) == dots[..|dots| - 1];
      } else {
        assert MuNormalize.Unixify(dots + rem) == dots + MuNormalize.Unixify(rem);
      }
    }
  }

  /** The walk-up is made of dots and slashes only. */
  lemma {:induction false} RepeatDotDotBytes(n: nat)
    ensures forall i :: 0 <= i < |Repeat("../", n)| ==> Repeat("../", n)[i] == '.' || Repeat("../", n)[i] == '/'
    ensures MuNormalize.Unixify(Repeat("../", n)) == Repeat("../", n)
  {
    if n > 0 {
      RepeatDotDotBytes(n - 1);
    }
  }

  /**
   * The walk-up counts the base's separators from the common prefix on,
   * that one included, and then emits one `../` more.
   */
  lemma WalkUpCountsBaseSeparators(a: string, b: string, lenDir: nat)
    requires NoNul(b) && lenDir <= |b|
    requires var cpl := CommonPrefix(a, b, lenDir); 0 < cpl < lenDir
    ensures var cpl := CommonPrefix(a, b, lenDir);
      IsSeparator(b[cpl]) && DotDots(b, cpl, lenDir) == SepsIn(b, cpl, |b|) + 1
  {
    var cpl := CommonPrefix(a, b, lenDir);
    CommonPrefixIsLastSharedSeparator(a, b, lenDir);
    SepsFront(b, cpl, |b|);
  }

  /** The size of `char dotdot[PATH_MAX]` on Linux. */
  const DotDotCapacity: nat := 4096

  /** The walk-up and its terminator fit `dotdot`; the source writes them without checking. */
  predicate WalkUpFits(b: string, cpl: nat, lenDir: nat)
    requires cpl <= lenDir <= |b|
  {
    3 * DotDots(b, cpl, lenDir) + 1 <= DotDotCapacity
  }

  /**
   * The walk-up overruns `dotdot` exactly when 1365 or more base
   * separators follow the common prefix, that one included.
   */
  lemma WalkUpFitsExactly(a: string, b: string, lenDir: nat)
    requires NoNul(b) && lenDir <= |b|
    requires var cpl := CommonPrefix(a, b, lenDir); 0 < cpl < lenDir
    ensures var cpl := CommonPrefix(a, b, lenDir);
      WalkUpFits(b, cpl, lenDir) <==> SepsIn(b, cpl, |b|) <= 1364
  {
    WalkUpCountsBaseSeparators(a, b, lenDir);
  }

  /**
   * With no separator shared past the drive spec, the target comes back
   * unchanged: paths on two drives are not made relative.
   */
  lemma CopiesTargetWithoutSharedDirectory(a: string, b: string, lenDir: nat, lenDrive: nat)
    requires NoNul(b) && lenDir <= |b| && 0 < lenDrive
    requires forall q :: lenDrive <= q <= lenDir && AgreeThrough(a, b, q) ==> Unslash(At(b, q)) != '/'
    ensures Relative(a, b, lenDir, lenDrive) == a
  {
    CommonPrefixIsLastSharedSeparator(a, b, lenDir);
  }

  /** A separator shared at or past the drive spec makes the result a walk-up and a remainder. */
  lemma WalksUpFromSharedDirectory(a: string, b: string, lenDir: nat, lenDrive: nat, q: nat)
    requires NoNul(b) && lenDir <= |b|
    requires lenDrive <= q <= lenDir && AgreeThrough(a, b, q) && Unslash(At(b, q)) == '/'
    ensures var cpl := CommonPrefix(a, b, lenDir);
      lenDrive <= q <= cpl
      && Relative(a, b, lenDir, lenDrive) == (
        var dots := Repeat("../", DotDots(b, cpl, lenDir));
        if Remainder(a, cpl) == [] && dots != [] then dots[..|dots| - 1] else dots + Remainder(a, cpl))
  {
    CommonPrefixIsLastSharedSeparator(a, b, lenDir);
  }

  /**
   * When the target is the directory the prefix ends in, the result is
   * made of `..` elements only and ends on `..`, not on a separator.
   */
  lemma EmptyRemainderEndsOnDotDot(a: string, b: string, lenDir: nat, lenDrive: nat)
    requires NoNul(b) && lenDir <= |b|
    requires var cpl := CommonPrefix(a, b, lenDir);
      cpl >= lenDrive && Remainder(a, cpl) == [] && DotDots(b, cpl, lenDir) > 0
    ensures var cpl := CommonPrefix(a, b, lenDir);
      Relative(a, b, lenDir, lenDrive) == Repeat("../", DotDots(b, cpl, lenDir) - 1) + ".."
  {
    var cpl := CommonPrefix(a, b, lenDir);
    var n := DotDots(b, cpl, lenDir);
    var dots := Repeat("../", n);
    assert dots == Repeat("../", n - 1) + "../";
    assert dots[..|dots| - 1] == Repeat("../", n - 1) + "..";
  }

  // ---------------------------------------------------------------------
  // Worked examples, with `lenDir` the offset of the base's last separator.

  /** A target in the base's own directory: only its name is left. */
  lemma ExampleSameDirectory()
    ensures Relative("/a/b/c/d1", "/a/b/c/x", 6, 1) == "d1"
  {
    var a, b := "/a/b/c/d1", "/a/b/c/x";
    assert CommonPrefix(a, b, 6) == 6;
    assert At(b, 6) == '/';
    assert a[7..] == "d1";
  }

  /**
   * A sibling directory: the walk-up counts `/b`, `/c` and one more, so
   * `/a/e/f` relative to `/a/b/c` is `../../../e/f`, one `..` more than the
   * two levels between `/a/b/c` and `/a`.
   */
  lemma ExampleSiblingDirectory()
    ensures Relative("/a/e/f", "/a/b/c", 4, 1) == "../../../e/f"
  {
    var a, b := "/a/e/f", "/a/b/c";
    assert !SameAt(a, b, 3);
    assert CommonPrefix(a, b, 4) == 2;
    assert NextSeparator(b, 3) == Some(4);
    assert SepsIn(b, 3, 6) == 1;
    assert a[3..] == "e/f";
  }

  /** Another drive: the target is copied. */
  lemma ExampleOtherDrive()
    ensures Relative("D:/a", "C:/a/b/c", 6, 2) == "D:/a"
  {
    assert CommonPrefix("D:/a", "C:/a/b/c", 6) == 0;
  }

  /** The target is a parent of the base's directory: the result ends on `..`. */
  lemma ExampleParentDirectory()
    ensures Relative("/a/", "/a/b/c", 4, 1) == "../../.."
  {
    var a, b := "/a/", "/a/b/c";
    assert !SameAt(a, b, 3);
    assert CommonPrefix(a, b, 4) == 2;
    assert SepsIn(b, 3, 6) == 1;
    assert Remainder(a, 2) == [];
    assert Repeat("../", 3) == "../../../";
  }

  // ---------------------------------------------------------------------
  // The implementation.

  /** What `fz_snprintf` and `fz_strncpy_s` leave in a buffer of `size` bytes. */
  function Truncated(s: string, size: nat): (r: string)
    requires 0 < size
    ensures |r| < size && |r| <= |s| && r == s[..|r|]
    ensures |s| < size ==> r == s
  {
    if |s| < size then s else s[..size - 1]
  }

  /** Writes `s` into `dst`, cut to fit with its terminator. */
  method StoreTruncated(dst: array<char>, s: string)
    requires NoNul(s) && 0 < dst.Length
    modifies dst
    ensures CStrOf(dst[..]) == Truncated(s, dst.Length)
  {
    var t := Truncated(s, dst.Length);
    var i := 0;
    while i < |t|
      invariant 0 <= i <= |t|
      invariant dst[..i] == t[..i]
    {
      dst[i] := t[i];
      i := i + 1;
    }
    dst[|t|] := NUL;
    assert dst[..][..|t|] == t;
    CStrOfPrefix(dst[..], |t|);
  }

  /** The comparison loop over the base's directory part and its terminator. */
  method ComparePrefix(a: string, b: string, lenDir: nat) returns (cpl: nat)
    requires NoNul(b) && lenDir <= |b|
    ensures cpl == CommonPrefix(a, b, lenDir)
  {
    cpl := 0;
    var pos := 0;
    while pos < lenDir + 1
      invariant pos <= lenDir + 1 && (pos <= lenDir ==> pos <= |a|)
      invariant Scan(a, b, lenDir, pos, cpl) == CommonPrefix(a, b, lenDir)
    {
      var c1 := At(a, pos);
      var c2 := At(b, pos);
      if c1 == '\\' {
        c1 := '/';
      }
      if c2 == '\\' {
        c2 := '/';
      }
      if c1 != c2 {
        break;
      }
      if c1 == '/' {
        cpl := pos;
      }
      pos := pos + 1;
    }
  }

  /** The walk-up: one `../` per separator of the base from the common prefix on, and a final one. */
  method WalkUp(b: string, cpl: nat, lenDir: nat) returns (dotdot: string)
    requires NoNul(b) && cpl <= lenDir <= |b|
    ensures dotdot == Repeat("../", DotDots(b, cpl, lenDir))
  {
    dotdot := "";
    if At(b, cpl) != NUL && lenDir > cpl {
      var sep := cpl;
      dotdot := dotdot + "../";
      var next := NextSeparator(b, sep + 1);
      while next.Some?
        invariant cpl <= sep < |b|
        invariant next == NextSeparator(b, sep + 1)
        invariant dotdot == Repeat("../", 1 + SepsIn(b, cpl + 1, sep + 1))
        decreases |b| - sep
      {
        var found := next.value;
        SepsSplit(b, cpl + 1, sep + 1, found + 1);
        sep := found;
        dotdot := dotdot + "../";
        next := NextSeparator(b, sep + 1);
      }
      SepsSplit(b, cpl + 1, sep + 1, |b|);
      dotdot := dotdot + "../";
    }
  }

  /**
   * `fz_mk_relative_path(ctx, dst, dstsiz, abspath, relative_to_abspath)`
   * with `dstsiz` the length of the array.
   */
  method MkRelativePath(dst: array<char>, abspath: string, base: string, lenDir: nat, lenDrive: nat)
    requires NoNul(abspath) && NoNul(base) && lenDir <= |base|
    modifies dst
    ensures 0 < dst.Length ==>
      CStrOf(dst[..]) == Truncated(Relative(abspath, base, lenDir, lenDrive), dst.Length)
  {
    var cpl := ComparePrefix(abspath, base, lenDir);
    var dotdot := WalkUp(base, cpl, lenDir);
    var out := JoinRelative(abspath, base, lenDir, lenDrive, cpl, dotdot);
    if 0 < dst.Length {
      StoreTruncated(dst, out);
    }
  }

  /**
   * The tail of `fz_mk_relative_path`: the `../` steps and the remainder
   * after the common prefix's separator, or the target itself when the
   * common prefix stops short of the drive spec.
   */
  method JoinRelative(abspath: string, base: string, lenDir: nat, lenDrive: nat, cpl: nat, dotdot: string)
    returns (out: string)
    requires NoNul(abspath) && NoNul(base) && lenDir <= |base| && cpl == CommonPrefix(abspath, base, lenDir)
    requires dotdot == Repeat("../", DotDots(base, cpl, lenDir))
    ensures out == Relative(abspath, base, lenDir, lenDrive) && NoNul(out)
  {
    RepeatDotDotBytes(DotDots(base, cpl, lenDir));
    var dots := dotdot;
    if cpl >= lenDrive {
      var remainder := abspath[cpl..];
      if At(abspath, cpl) != NUL {
        remainder := remainder[1..];
      }
      if remainder == [] && dots != [] {
        dots := dots[..|dots| - 1];
      }
      out := dots + remainder;
    } else {
      out := abspath;
    }
  }

  // ---------------------------------------------------------------------
  // `fz_is_absolute_path` and `fz_mk_absolute_path_using_absolute_base`.

  /**
   * A root separator of either style (which covers UNC paths), or a
   * drive letter and colon followed by a separator or by the terminator.
   */
  predicate IsAbsolutePath(path: Option<string>) {
    path.Some? &&
      var p := path.value;
      At(p, 0) == '/' || At(p, 0) == '\\'
      || (IsAlpha(At(p, 0)) && At(p, 1) == ':' && StrChr("/\\", At(p, 2)))
  }

  /** The test reads no further than its terminator, and its verdict as a property of the path. */
  lemma IsAbsolutePathMeaning(p: string)
    requires NoNul(p)
    ensures IsAbsolutePath(Some(p)) <==>
      (|p| > 0 && IsSeparator(p[0]))
      || (|p| >= 2 && IsAlpha(p[0]) && p[1] == ':' && (|p| == 2 || IsSeparator(p[2])))
  {
    if |p| >= 2 && IsAlpha(p[0]) && p[1] == ':' && |p| > 2 {
      assert At(p, 2) == p[2];
    }
  }

  /** The test does not care which separator style the path uses. */
  lemma IsAbsolutePathUnixified(p: string)
    requires NoNul(p)
    ensures IsAbsolutePath(Some(MuNormalize.Unixify(p))) == IsAbsolutePath(Some(p))
  {
    var u := MuNormalize.Unixify(p);
    IsAbsolutePathMeaning(p);
    IsAbsolutePathMeaning(u);
  }

  /** `C:` counts as absolute, `C:x` and a relative name do not; a missing path is not absolute. */
  lemma ExampleAbsolutePaths()
    ensures IsAbsolutePath(Some("/usr")) && IsAbsolutePath(Some("\\\\server\\share"))
    ensures IsAbsolutePath(Some("C:\\x")) && IsAbsolutePath(Some("C:"))
    ensures !IsAbsolutePath(Some("C:x")) && !IsAbsolutePath(Some("a/b")) && !IsAbsolutePath(Some(""))
    ensures !IsAbsolutePath(None)
  {
  }

  /**
   * The path the buffer receives before normalization: an absolute
   * source as it is; otherwise the source after the base file path and a
   * `/../`, which later removes the base's file name.
   */
  function Joined(source: string, base: string): (r: string)
    ensures NoNul(source) && NoNul(base) ==> NoNul(r)
  {
    if IsAbsolutePath(Some(source)) then source else base + "/../" + source
  }

  /** Joining a relative source to an absolute base gives an absolute path. */
  lemma JoinedIsAbsolute(source: string, base: string)
    requires NoNul(source) && NoNul(base) && IsAbsolutePath(Some(base))
    ensures IsAbsolutePath(Some(Joined(source, base)))
  {
    var j := Joined(source, base);
    IsAbsolutePathMeaning(base);
    IsAbsolutePathMeaning(j);
    if !IsAbsolutePath(Some(source)) {
      assert j[..|base|] == base;
      if |base| == 2 {
        assert j[2] == '/';
      }
    }
  }

  /** `/../` removes the base's file name: a relative name lands in the base's directory. */
  lemma ExampleJoinedNormalized()
    ensures Joined("x", "/a/f") == "/a/f/../x"
    ensures MuNormalize.Normalize("/a/f/../x") == Ok("/a/x")
  {
    var s := "/a/f/../x";
    assert !IsAbsolutePath(Some("x"));
    assert MuNormalize.Unixify(s) == s;
    assert MuNormalize.LeaderLength(s) == 0 && !MuNormalize.HasDrive(s, 0);
    assert MuNormalize.FindSlash(s, 1) == Some(2);
    assert MuNormalize.Step(s, 0, 0, 2) == (s, 3);
    assert MuNormalize.FindSlash(s, 3) == Some(4);
    assert MuNormalize.Step(s, 0, 3, 4) == (s, 5);
    assert MuNormalize.FindSlash(s, 5) == Some(7);
    assert MuNormalize.BackScan(s, 0, 3) == 3;
    assert s[..3] + s[8..] == "/a/x";
    assert MuNormalize.Step(s, 0, 5, 7) == ("/a/x", 3);
    assert MuNormalize.FindSlash("/a/x", 3) == None;
    assert MuNormalize.Loop(s, 0, 0, Some(2)) == ("/a/x", 3);
    assert "/a/x"[3..] == "x";
  }

  /** What the composition may be given: each pass accepts what the previous one leaves. */
  predicate Absolutizable(joined: string, decode: MuSanitize.Decoder, legal: int -> bool)
    requires MuSanitize.DecoderStaysWithin(decode) && MuSanitize.DecoderReadsSequence(decode)
  {
    MuNormalize.Normalizable(joined)
    && var n := MuNormalize.Normalize(joined);
    (n.Ok? ==>
       MuSanitize.Sanitizable(n.value, 0)
       && MuSanitize.Sanitized(n.value, 0, MuSanitize.RulesFor(None, None, decode, legal)).Some?)
  }

  /** The whole composition on the joined path: the normalization error, or the sanitized result. */
  function Absolutized(joined: string, decode: MuSanitize.Decoder, legal: int -> bool): Result<string>
    requires MuSanitize.DecoderStaysWithin(decode) && MuSanitize.DecoderReadsSequence(decode)
    requires Absolutizable(joined, decode, legal)
  {
    var n := MuNormalize.Normalize(joined);
    if n.Err? then Err(n.message)
    else Ok(MuSanitize.Sanitized(n.value, 0, MuSanitize.RulesFor(None, None, decode, legal)).value)
  }

  /** `fz_normalize_path(ctx, dst, dstsiz, dst)` on a buffer holding `joined`. */
  method NormalizeStored(dst: array<char>, ghost joined: string) returns (outcome: MuNormalize.Outcome)
    requires MuNormalize.Normalizable(joined) && CStrOf(dst[..]) == joined && |joined| < dst.Length
    modifies dst
    ensures var n := MuNormalize.Normalize(joined);
      (n.Err? ==> outcome == MuNormalize.Thrown(n.message))
      && (n.Ok? ==> outcome == MuNormalize.Done && CStrOf(dst[..]) == n.value && |n.value| < dst.Length)
  {
    assert dst[|joined|] == NUL;
    MuNormalize.NormalizeGuarantees(joined);
    outcome := MuNormalize.NormalizePath(dst, None);
  }

  /** `fz_sanitize_path(ctx, dst, dstsiz, dst)` on a buffer holding `normalized`. */
  method SanitizeStored(dst: array<char>, ghost normalized: string, decode: MuSanitize.Decoder, legal: int -> bool)
    requires MuSanitize.DecoderStaysWithin(decode) && MuSanitize.DecoderReadsSequence(decode)
    requires CStrOf(dst[..]) == normalized && |normalized| < dst.Length
    requires MuSanitize.Sanitizable(normalized, 0)
    requires MuSanitize.Sanitized(normalized, 0, MuSanitize.RulesFor(None, None, decode, legal)).Some?
    modifies dst
    ensures CStrOf(dst[..]) == MuSanitize.Sanitized(normalized, 0, MuSanitize.RulesFor(None, None, decode, legal)).value
  {
    assert dst[|normalized|] == NUL;
    var r := MuSanitize.SanitizePath(dst, None, decode, legal);
  }

  /**
   * `fz_mk_absolute_path_using_absolute_base(ctx, dst, dstsiz, source,
   * base)` with `dstsiz` the length of the array: the joined path, cut
   * to fit, normalized and then sanitized in place. The only error is
   * the one normalization throws.
   */
  method MkAbsolutePath(dst: array<char>, source: string, base: string, decode: MuSanitize.Decoder, legal: int -> bool)
    returns (outcome: MuNormalize.Outcome)
    requires NoNul(source) && NoNul(base) && 0 < dst.Length
    requires MuSanitize.DecoderStaysWithin(decode) && MuSanitize.DecoderReadsSequence(decode)
    requires Absolutizable(Truncated(Joined(source, base), dst.Length), decode, legal)
    modifies dst
    ensures var r := Absolutized(Truncated(Joined(source, base), dst.Length), decode, legal);
      (r.Err? ==> outcome == MuNormalize.Thrown(r.message))
      && (r.Ok? ==> outcome == MuNormalize.Done && CStrOf(dst[..]) == r.value)
  {
    ghost var joined := Truncated(Joined(source, base), dst.Length);
    StoreTruncated(dst, Joined(source, base));
    outcome := NormalizeStored(dst, joined);
    if outcome == MuNormalize.Done {
      SanitizeStored(dst, MuNormalize.Normalize(joined).value, decode, legal);
    }
  }
}
