/**
 * `fz_normalize_path` of sanitize-filepath.c: turn every `\` into `/`, skip
 * a `//?/`, `//./` or `//server` leader and a drive letter (upper-casing
 * the latter), then resolve the `.` and `..` directories and drop empty
 * ones, in place, in a buffer that never has to grow.
 *
 * The value-level functions below follow the C code token by token: a
 * state is the current string plus the offset `p` of the token being
 * looked at, and `Step` is one turn of the `while (e)` loop. The method
 * `NormalizePath` does the same work on an `array<char>` with `memmove`
 * and is proved to leave exactly what `Normalize` computes.
 */
module MuNormalize {
  import opened CStrings

  const NullBufferMessage: string := "fz_normalize_path: dstpath cannot be NULL."
  const OverrunMessage: string := "fz_normalize_path: buffer overrun."
  const IllegalDotDotMessage: string := "fz_normalize_path: illegal /.. path."

  /** What a call that may `fz_throw` ends with. */
  datatype Outcome = Done | Thrown(message: string)

  /** The path with every `\` replaced by `/`. */
  function Unixify(s: string): (r: string)
    ensures |r| == |s|
    ensures forall i :: 0 <= i < |s| ==> r[i] == (if s[i] == '\\' then '/' else s[i])
  {
    seq(|s|, i requires 0 <= i < |s| => if s[i] == '\\' then '/' else s[i])
  }

  /**
   * The leader test `e[0] == '/' && e[1] == '/' && strchr(".?", e[2])`
   * reads `e[3]` of `//`, one byte past its terminator.
   */
  predicate LeaderReadsWithinString(s: string) {
    s != "//"
  }

  /** How many bytes the UNC leader takes: 4 for `//?/` and `//./`, 2 for `//server`, else 0. */
  function LeaderLength(s: string): (n: nat)
    requires NoNul(s) && LeaderReadsWithinString(s)
    ensures n <= |s|
    ensures n == 4 <==> 4 <= |s| && s[..2] == "//" && (s[2] == '.' || s[2] == '?') && s[3] == '/'
    ensures n == 2 <==> 2 <= |s| && s[..2] == "//" && !(4 <= |s| && (s[2] == '.' || s[2] == '?') && s[3] == '/')
    ensures n == 0 <==> !(2 <= |s| && s[..2] == "//")
  {
    if At(s, 0) == '/' && At(s, 1) == '/' && StrChr(".?", At(s, 2)) && At(s, 3) == '/' then 4
    else if At(s, 0) == '/' && At(s, 1) == '/' then 2
    else 0
  }

  /** A drive letter `X:` at offset `e`, looked for only when no `//server` leader was seen. */
  predicate HasDrive(s: string, e: nat)
    requires e <= |s|
  {
    IsAlpha(At(s, e)) && e + 1 <= |s| && At(s, e + 1) == ':'
  }

  /** `strchr(s + from, '/')` as an offset into `s`. */
  function FindSlash(s: string, from: nat): (r: Option<nat>)
    requires from <= |s|
    ensures r.Some? ==> from <= r.value < |s| && s[r.value] == '/'
    ensures r.Some? ==> forall k :: from <= k < r.value ==> s[k] != '/'
    ensures r.None? ==> forall k :: from <= k < |s| ==> s[k] != '/'
    decreases |s| - from
  {
    if from == |s| then None
    else if s[from] == '/' then Some(from)
    else FindSlash(s, from + 1)
  }

  /** The backward scan from `q` to the start of the token before it, stopping at `start`. */
  function BackScan(s: string, start: nat, q: nat): (r: nat)
    requires start <= q <= |s|
    ensures start <= r <= q
    ensures r == start || s[r - 1] == '/'
    ensures forall k :: r <= k < q ==> s[k] != '/'
    decreases q
  {
    if q > start && s[q - 1] != '/' then BackScan(s, start, q - 1) else q
  }

  /** `strncmp(s + q, "../", 3) == 0` where three bytes are available. */
  predicate ParentIsDotDot(s: string, q: nat)
    requires q + 3 <= |s|
  {
    s[q] == '.' && s[q + 1] == '.' && s[q + 2] == '/'
  }

  /** Token `s[p..e]` is `.`: `strncmp(p, ".", e - p) == 0` for a token without NUL. */
  predicate IsDotToken(s: string, p: nat, e: nat)
    requires p <= e <= |s|
  {
    e - p == 1 && s[p] == '.'
  }

  /** Token `s[p..e]` is `..`. */
  predicate IsDotDotToken(s: string, p: nat, e: nat)
    requires p <= e <= |s|
  {
    e - p == 2 && s[p] == '.' && s[p + 1] == '.'
  }

  /**
   * One turn of the loop, for the token `s[p..e]` that ends at the slash
   * `s[e]`: the new string and the new `p`.
   */
  function Step(s: string, start: nat, p: nat, e: nat): (r: (string, nat))
    requires start <= p <= e < |s|
    ensures start <= r.1 <= |r.0| <= |s|
    ensures |r.0| - r.1 <= |s| - e - 1
    ensures r.0[..r.1] == s[..r.1]
  {
    if e == p || IsDotToken(s, p, e) then (s[..p] + s[e + 1..], p)
    else if IsDotDotToken(s, p, e) && p >= start + 2 then
      var q := BackScan(s, start, p - 2);
      if !ParentIsDotDot(s, q) then (s[..q] + s[e + 1..], q) else (s, e + 1)
    else (s, e + 1)
  }

  /** The `while (e)` loop from token offset `p`, with `e` the slash ending that token. */
  function Loop(s: string, start: nat, p: nat, e: Option<nat>): (r: (string, nat))
    requires start <= p <= |s|
    requires e.Some? ==> p <= e.value < |s|
    ensures start <= r.1 <= |r.0| <= |s|
    ensures r.0[..start] == s[..start]
    decreases |s| - p
  {
    match e
    case None => (s, p)
    case Some(ev) =>
      var (s', p') := Step(s, start, p, ev);
      Loop(s', start, p', FindSlash(s', p'))
  }

  /** The final token, `.` or `..` without a trailing slash, then the terminator `*p = 0`. */
  function Tail(s: string, start: nat, p: nat): (r: Result<string>)
    requires start <= p <= |s|
    ensures r.Ok? ==> start <= |r.value| <= |s| && r.value == s[..|r.value|]
    ensures r.Err? ==> r.message == IllegalDotDotMessage
  {
    if s[p..] == "." then Ok(s[..if p - 1 > start then p - 1 else p])
    else if s[p..] == ".." && p >= start + 2 then
      var q := BackScan(s, start, p - 2);
      if ParentIsDotDot(s, q) then Ok(s)
      else if q - 1 > start then Ok(s[..q - 1])
      else if q - 1 == start then Err(IllegalDotDotMessage)
      else Ok(s[..q])
    else Ok(s)
  }

  /** What precedes the part that is normalized: the leader and the drive. */
  function Prefixed(s1: string): (r: (string, nat))
    requires NoNul(s1) && LeaderReadsWithinString(s1)
    ensures |r.0| == |s1| && r.1 <= |s1|
  {
    var e := LeaderLength(s1);
    if e != 2 && HasDrive(s1, e) then (s1[e := ToUpper(s1[e])], e + 2) else (s1, e)
  }

  /** A C string whose leader test stays within it. */
  predicate Normalizable(path: string) {
    NoNul(path) && LeaderReadsWithinString(Unixify(path))
  }

  /** The whole of `fz_normalize_path` on the string to normalize. */
  function Normalize(path: string): Result<string>
    requires Normalizable(path)
  {
    var (s2, start) := Prefixed(Unixify(path));
    var (s3, p) := Loop(s2, start, start, FirstSlash(s2, start));
    Tail(s3, start, p)
  }

  /** The first token is searched from `p + 1` so that a root `/` stays part of it. */
  function FirstSlash(s: string, start: nat): (r: Option<nat>)
    requires start <= |s|
  {
    FindSlash(s, if start < |s| then start + 1 else start)
  }

  // ---------------------------------------------------------------------
  // What normalization guarantees.

  /** No `//` in `s[..n]` except one starting at offset `start`. */
  predicate NoEmptyDirectories(s: string, start: nat, n: nat)
    requires n <= |s|
  {
    forall i :: start < i && i + 1 < n ==> !(s[i] == '/' && s[i + 1] == '/')
  }

  /**
   * The token ending at `e` holds no slash, except a root slash when it is
   * the first token.
   */
  predicate TokenAt(s: string, start: nat, p: nat, e: Option<nat>)
    requires start <= p <= |s|
  {
    e == FindSlash(s, p) || (p == start && e == FirstSlash(s, start))
  }

  /** One turn of the loop keeps the processed part free of empty directories. */
  lemma StepKeepsNoEmptyDirectories(s: string, start: nat, p: nat, e: nat)
    requires start <= p <= e < |s|
    requires TokenAt(s, start, p, Some(e))
    requires NoEmptyDirectories(s, start, p) && (p == start || s[p - 1] == '/')
    ensures var st := Step(s, start, p, e);
      NoEmptyDirectories(st.0, start, st.1) && (st.1 == start || st.0[st.1 - 1] == '/')
  {
    var (s', p') := Step(s, start, p, e);
    assert s'[..p'] == s[..p'];
    if p' == e + 1 {
      forall i | start < i && i + 1 < p'
        ensures !(s'[i] == '/' && s'[i + 1] == '/')
      {
        if i + 1 >= p {
          if Some(e) == FindSlash(s, p) {
            assert s[i + 1] != '/' || s[i] != '/';
          } else {
            assert start + 1 <= i < e;
          }
        }
      }
    } else {
      assert p' <= p;
    }
  }

  /** When no slash is left, the loop stops, and what it has is free of empty directories. */
  lemma LoopEndNoEmptyDirectories(s: string, start: nat, p: nat)
    requires start <= p <= |s| && TokenAt(s, start, p, None)
    requires NoEmptyDirectories(s, start, p) && (p == start || s[p - 1] == '/')
    ensures NoEmptyDirectories(s, start, |s|)
  {
    forall i | start < i && i + 1 < |s|
      ensures !(s[i] == '/' && s[i + 1] == '/')
    {
      if i + 1 >= p && None == FindSlash(s, p) {
        assert s[i + 1] != '/';
      }
    }
  }

  /** The loop leaves no empty directory after the first token. */
  lemma {:induction false} LoopLeavesNoEmptyDirectories(s: string, start: nat, p: nat, e: Option<nat>)
    requires start <= p <= |s|
    requires e.Some? ==> p <= e.value < |s|
    requires TokenAt(s, start, p, e)
    requires NoEmptyDirectories(s, start, p) && (p == start || s[p - 1] == '/')
    ensures var r := Loop(s, start, p, e).0; NoEmptyDirectories(r, start, |r|)
    decreases |s| - p
  {
    match e
    case None =>
      LoopEndNoEmptyDirectories(s, start, p);
    case Some(ev) =>
      var st := Step(s, start, p, ev);
      StepKeepsNoEmptyDirectories(s, start, p, ev);
      LoopLeavesNoEmptyDirectories(st.0, start, st.1, FindSlash(st.0, st.1));
  }

  /** A byte missing from the input is missing from what the loop leaves. */
  lemma {:induction false} LoopKeepsAbsent(s: string, start: nat, p: nat, e: Option<nat>, c: char)
    requires start <= p <= |s|
    requires e.Some? ==> p <= e.value < |s|
    requires c !in s
    ensures c !in Loop(s, start, p, e).0
    decreases |s| - p
  {
    match e
    case None =>
    case Some(ev) =>
      var (s', p') := Step(s, start, p, ev);
      assert forall k :: 0 <= k < |s'| ==> s'[k] in s;
      LoopKeepsAbsent(s', start, p', FindSlash(s', p'), c);
  }

  /** `Loop` then `Tail` from any start: the guarantees on a string already prefixed. */
  lemma ResolveGuarantees(s2: string, start: nat)
    requires start <= |s2| && '\\' !in s2
    ensures var (s3, p) := Loop(s2, start, start, FirstSlash(s2, start));
      var res := Tail(s3, start, p);
      (res.Ok? ==> var r := res.value;
        |r| <= |s2| && '\\' !in r && start <= |r| && r[..start] == s2[..start]
        && NoEmptyDirectories(r, start, |r|))
      && (res.Err? ==> res.message == IllegalDotDotMessage)
  {
    var e0 := FirstSlash(s2, start);
    var (s3, p) := Loop(s2, start, start, e0);
    LoopKeepsAbsent(s2, start, start, e0, '\\');
    LoopLeavesNoEmptyDirectories(s2, start, start, e0);
    match Tail(s3, start, p)
    case Ok(r) =>
      assert r == s3[..|r|];
      assert r[..start] == s3[..start];
      forall k | 0 <= k < |r|
        ensures r[k] != '\\'
      {
        assert r[k] == s3[k];
      }
    case Err(_) =>
  }

  /** The leader and drive rewriting introduces no `\`. */
  lemma PrefixedUnixified(path: string)
    requires Normalizable(path)
    ensures '\\' !in Prefixed(Unixify(path)).0
  {
    var s1 := Unixify(path);
    assert forall k :: 0 <= k < |s1| ==> s1[k] != '\\';
  }

  /**
   * A successful normalization never lengthens the path, leaves no `\`,
   * keeps the leader and drive exactly as `Prefixed` rewrote them, and
   * leaves no empty directory after the first one; the only error is the
   * unresolvable `/..`.
   */
  lemma NormalizeGuarantees(path: string)
    requires Normalizable(path)
    ensures var (s2, start) := Prefixed(Unixify(path));
      var res := Normalize(path);
      (res.Ok? ==> var r := res.value;
        |r| <= |path| && '\\' !in r && start <= |r| && r[..start] == s2[..start]
        && NoEmptyDirectories(r, start, |r|))
      && (res.Err? ==> res.message == IllegalDotDotMessage)
  {
    var (s2, start) := Prefixed(Unixify(path));
    PrefixedUnixified(path);
    ResolveGuarantees(s2, start);
  }

  // ---------------------------------------------------------------------
  // What becomes of `.` and `..`.

  /** Offset `k` begins a segment of the part after `start`: it is `start` or follows a slash. */
  predicate SegmentAt(r: string, start: nat, k: nat) {
    start <= k <= |r| && (k == start || r[k - 1] == '/')
  }

  /** The segment at `k` is `.`. */
  predicate DotSegment(r: string, k: nat) {
    k < |r| && r[k] == '.' && (k + 1 == |r| || r[k + 1] == '/')
  }

  /** The segment at `k` is `..`. */
  predicate DotDotSegment(r: string, k: nat) {
    k + 1 < |r| && r[k] == '.' && r[k + 1] == '.' && (k + 2 == |r| || r[k + 2] == '/')
  }

  /** The segment right after a root slash at `start`, which the first token carries unexamined. */
  predicate AfterRoot(r: string, start: nat, k: nat) {
    k == start + 1 && start < |r| && r[start] == '/'
  }

  /** A `..` at `k` that may stay: a leading one, or one right after another `..`. */
  predicate ParentMayStay(r: string, start: nat, k: nat) {
    k <= start + 1
    || (start + 3 <= k <= |r| && r[k - 3] == '.' && r[k - 2] == '.' && r[k - 1] == '/'
        && SegmentAt(r, start, k - 3))
  }

  /**
   * The segments that begin before `n` are resolved: none is `.` (save one
   * right after a root slash) and every `..` may stay.
   */
  ghost predicate DotsResolved(r: string, start: nat, n: nat) {
    (forall k: nat :: SegmentAt(r, start, k) && k < n && !AfterRoot(r, start, k) ==> !DotSegment(r, k))
    && (forall k: nat :: SegmentAt(r, start, k) && k < n && DotDotSegment(r, k) ==> ParentMayStay(r, start, k))
  }

  /** Whether the segments before a segment start `n` are resolved depends on `s[..n]` only. */
  lemma DotsResolvedPrefix(s: string, t: string, start: nat, n: nat)
    requires start <= n <= |s| && n <= |t| && s[..n] == t[..n]
    requires n == start || s[n - 1] == '/'
    requires DotsResolved(s, start, n)
    ensures DotsResolved(t, start, n)
  {
    forall i | 0 <= i < n
      ensures s[i] == t[i]
    {
      assert s[..n][i] == t[..n][i];
    }
    forall k: nat | SegmentAt(t, start, k) && k < n
      ensures SegmentAt(s, start, k) && AfterRoot(t, start, k) == AfterRoot(s, start, k)
      ensures DotSegment(t, k) ==> DotSegment(s, k)
      ensures DotDotSegment(t, k) ==> DotDotSegment(s, k) && ParentMayStay(t, start, k)
    {
      if DotDotSegment(t, k) {
        assert k + 2 < n;
        assert ParentMayStay(s, start, k);
      }
    }
  }

  /** Cutting `s` at the slash `s[m]` leaves the segments before it resolved, the last one included. */
  lemma DotsResolvedCut(s: string, start: nat, m: nat)
    requires start <= m < |s| && s[m] == '/'
    requires DotsResolved(s, start, m)
    ensures DotsResolved(s[..m], start, m + 1)
  {
    var r := s[..m];
    forall k: nat | SegmentAt(r, start, k) && k < m + 1
      ensures !AfterRoot(r, start, k) ==> !DotSegment(r, k)
      ensures DotDotSegment(r, k) ==> ParentMayStay(r, start, k)
    {
      if k < m {
        assert SegmentAt(s, start, k);
        assert DotSegment(r, k) ==> DotSegment(s, k);
        assert DotDotSegment(r, k) ==> DotDotSegment(s, k);
      }
    }
  }

  /**
   * A token `s[p..e]` that the loop keeps, ending at a slash or at the end:
   * the segments up to its end are resolved once the ones before it are.
   */
  lemma KeptTokenResolved(s: string, start: nat, p: nat, e: nat)
    requires start <= p <= e <= |s| && (e < |s| ==> s[e] == '/')
    requires SegmentAt(s, start, p) && DotsResolved(s, start, p)
    requires forall k :: p < k < e ==> s[k] != '/'
    requires p < e && s[p] == '/' ==> p == start
    requires !AfterRoot(s, start, p) ==> !DotSegment(s, p)
    requires DotDotSegment(s, p) ==> ParentMayStay(s, start, p)
    ensures DotsResolved(s, start, e + 1)
  {
    forall k: nat | SegmentAt(s, start, k) && p < k < e + 1
      ensures k == p + 1 && s[p] == '/' && p == start
    {
      assert s[k - 1] == '/';
    }
  }

  /** A `..` token at `p` whose parent the loop finds to be `../` follows that `..` directly. */
  lemma ParentDotDotAdjacent(s: string, start: nat, p: nat)
    requires start + 2 <= p <= |s| && s[p - 1] == '/' && NoEmptyDirectories(s, start, p)
    requires BackScan(s, start, p - 2) + 3 <= |s| && ParentIsDotDot(s, BackScan(s, start, p - 2))
    ensures BackScan(s, start, p - 2) == p - 3
  {
    var q := BackScan(s, start, p - 2);
    assert s[q + 2] == '/';
  }

  /** One turn of the loop keeps the segments before `p` resolved. */
  lemma StepResolvesDots(s: string, start: nat, p: nat, e: nat)
    requires start <= p <= e < |s|
    requires TokenAt(s, start, p, Some(e))
    requires NoEmptyDirectories(s, start, p) && SegmentAt(s, start, p) && DotsResolved(s, start, p)
    ensures var st := Step(s, start, p, e);
      SegmentAt(st.0, start, st.1) && DotsResolved(st.0, start, st.1)
  {
    var st := Step(s, start, p, e);
    if e == p || IsDotToken(s, p, e) {
      DotsResolvedPrefix(s, st.0, start, p);
      return;
    }
    assert s[e] == '/' && forall k :: p < k < e ==> s[k] != '/';
    assert s[p] == '/' ==> p == start;
    assert s[p] == '.' && s[p + 1] == '/' ==> e == p + 1;
    assert DotDotSegment(s, p) ==> e == p + 2;
    if IsDotDotToken(s, p, e) && p >= start + 2 {
      var q := BackScan(s, start, p - 2);
      if !ParentIsDotDot(s, q) {
        DotsResolvedPrefix(s, st.0, start, q);
      } else {
        ParentDotDotAdjacent(s, start, p);
        KeptTokenResolved(s, start, p, e);
      }
    } else {
      KeptTokenResolved(s, start, p, e);
    }
  }

  /**
   * The loop ends at a last token without a slash after it, with the
   * segments before that token resolved.
   */
  lemma {:induction false} LoopResolvesDots(s: string, start: nat, p: nat, e: Option<nat>)
    requires start <= p <= |s|
    requires e.Some? ==> p <= e.value < |s|
    requires TokenAt(s, start, p, e)
    requires NoEmptyDirectories(s, start, p) && SegmentAt(s, start, p) && DotsResolved(s, start, p)
    ensures var r := Loop(s, start, p, e);
      TokenAt(r.0, start, r.1, None) && NoEmptyDirectories(r.0, start, r.1)
      && SegmentAt(r.0, start, r.1) && DotsResolved(r.0, start, r.1)
    decreases |s| - p
  {
    match e
    case None =>
    case Some(ev) =>
      var st := Step(s, start, p, ev);
      StepKeepsNoEmptyDirectories(s, start, p, ev);
      StepResolvesDots(s, start, p, ev);
      LoopResolvesDots(st.0, start, st.1, FindSlash(st.0, st.1));
  }

  /** What the loop leaves for `Tail`: the string and the offset of its last token. */
  function Looped(path: string): (string, nat)
    requires Normalizable(path)
  {
    var (s2, start) := Prefixed(Unixify(path));
    Loop(s2, start, start, FirstSlash(s2, start))
  }

  /** The loop's end state, for every input. */
  lemma LoopedResolved(path: string)
    requires Normalizable(path)
    ensures var start := Prefixed(Unixify(path)).1; var r := Looped(path);
      TokenAt(r.0, start, r.1, None) && NoEmptyDirectories(r.0, start, r.1)
      && SegmentAt(r.0, start, r.1) && DotsResolved(r.0, start, r.1)
      && Normalize(path) == Tail(r.0, start, r.1)
  {
    var s2 := Prefixed(Unixify(path)).0;
    var start := Prefixed(Unixify(path)).1;
    LoopResolvesDots(s2, start, start, FirstSlash(s2, start));
  }

  /**
   * What `Tail` refuses: past the leader, a root slash, one segment other
   * than `..`, and a final `..` that would climb above the root.
   */
  predicate ClimbsAboveRoot(s: string, start: nat) {
    start + 5 <= |s| && s[start] == '/'
    && s[|s| - 3] == '/' && s[|s| - 2] == '.' && s[|s| - 1] == '.'
    && (forall k :: start < k < |s| - 3 ==> s[k] != '/')
    && !DotDotSegment(s, start + 1)
  }

  /** The last token sits after the last slash (or is the first token). */
  lemma LastTokenAfterSlashes(s: string, start: nat, p: nat, k: nat)
    requires start <= p <= |s| && TokenAt(s, start, p, None)
    requires start < k < |s| && s[k] == '/'
    ensures k < p
  {
    assert s[k] == '/';
  }

  /** The result `Tail` gives has every segment resolved. */
  lemma TailResolvesDots(s: string, start: nat, p: nat)
    requires start <= p <= |s| && TokenAt(s, start, p, None)
    requires NoEmptyDirectories(s, start, p) && SegmentAt(s, start, p) && DotsResolved(s, start, p)
    ensures Tail(s, start, p).Ok? ==>
      DotsResolved(Tail(s, start, p).value, start, |Tail(s, start, p).value| + 1)
  {
    assert forall k :: p < k < |s| ==> s[k] != '/';
    assert p < |s| && s[p] == '/' ==> p == start;
    assert DotSegment(s, p) ==> s[p..] == ".";
    assert DotDotSegment(s, p) ==> s[p..] == "..";
    if s[p..] == "." {
      if p - 1 > start {
        DotsResolvedCut(s, start, p - 1);
      }
    } else if s[p..] == ".." && p >= start + 2 {
      var q := BackScan(s, start, p - 2);
      if ParentIsDotDot(s, q) {
        ParentDotDotAdjacent(s, start, p);
        KeptTokenResolved(s, start, p, |s|);
      } else if q - 1 > start {
        DotsResolvedCut(s, start, q - 1);
      }
    } else {
      KeptTokenResolved(s, start, p, |s|);
    }
  }

  /** `Tail` fails exactly on a string that climbs above its root. */
  lemma TailFailsExactly(s: string, start: nat, p: nat)
    requires start <= p <= |s| && TokenAt(s, start, p, None)
    requires NoEmptyDirectories(s, start, p) && SegmentAt(s, start, p)
    ensures Tail(s, start, p).Err? <==> ClimbsAboveRoot(s, start)
  {
    if ClimbsAboveRoot(s, start) {
      LastTokenAfterSlashes(s, start, p, |s| - 3);
      assert p == |s| - 2;
      assert s[p..] == "..";
      var q := BackScan(s, start, p - 2);
      assert q == start + 1;
      assert ParentIsDotDot(s, q) ==> DotDotSegment(s, q);
    }
    if Tail(s, start, p).Err? {
      var q := BackScan(s, start, p - 2);
      assert q == start + 1 && s[start] == '/';
      assert s[p..][0] == s[p] && s[p..][1] == s[p + 1];
      assert s[p - 1] == '/' && |s| == p + 2;
      assert s[p - 2] != '/';
    }
  }

  /**
   * Past the leader and drive, a normalized path holds no `.` segment (save
   * one right after a root slash) and no `..` after a name: every `..` left
   * is leading or follows another `..`.
   */
  lemma NormalizeResolvesDots(path: string)
    requires Normalizable(path)
    ensures Normalize(path).Ok? ==>
      DotsResolved(Normalize(path).value, Prefixed(Unixify(path)).1, |Normalize(path).value| + 1)
  {
    LoopedResolved(path);
    TailResolvesDots(Looped(path).0, Prefixed(Unixify(path)).1, Looped(path).1);
  }

  /**
   * Normalization fails exactly when, after the loop, the part past the
   * leader is a root slash, one segment other than `..`, and a final `..`.
   */
  lemma NormalizeFailsExactly(path: string)
    requires Normalizable(path)
    ensures Normalize(path).Err? <==> ClimbsAboveRoot(Looped(path).0, Prefixed(Unixify(path)).1)
  {
    LoopedResolved(path);
    TailFailsExactly(Looped(path).0, Prefixed(Unixify(path)).1, Looped(path).1);
  }

  /**
   * A token the loop meets in a string already in normal form: the first
   * one, or one that starts a segment at least two bytes past `start`.
   */
  predicate LoopToken(s: string, start: nat, p: nat, e: Option<nat>)
    requires start <= p <= |s|
  {
    (p == start && e == FirstSlash(s, start)) || (p >= start + 2 && SegmentAt(s, start, p) && e == FindSlash(s, p))
  }

  /** On a string in normal form each turn keeps its token and moves past it. */
  lemma StepKeepsNormalForm(s: string, start: nat, p: nat, e: nat)
    requires start <= p <= e < |s| && LoopToken(s, start, p, Some(e))
    requires NoEmptyDirectories(s, start, |s|) && DotsResolved(s, start, |s| + 1)
    ensures Step(s, start, p, e) == (s, e + 1)
  {
    assert SegmentAt(s, start, p) && !AfterRoot(s, start, p);
    assert s[e] == '/' && forall k :: p < k < e ==> s[k] != '/';
    assert p > start ==> s[p - 1] == '/';
    assert s[p] == '.' && s[p + 1] == '/' ==> e == p + 1;
    if IsDotDotToken(s, p, e) && p >= start + 2 {
      assert DotDotSegment(s, p);
      ParentDotDotAdjacent(s, start, p);
    }
  }

  /** On a string in normal form the loop changes nothing and ends at a segment start. */
  lemma {:induction false} LoopKeepsNormalForm(s: string, start: nat, p: nat, e: Option<nat>)
    requires start <= p <= |s| && (e.Some? ==> p <= e.value < |s|) && LoopToken(s, start, p, e)
    requires NoEmptyDirectories(s, start, |s|) && DotsResolved(s, start, |s| + 1)
    ensures var r := Loop(s, start, p, e);
      r.0 == s && (r.1 == start || (r.1 >= start + 2 && SegmentAt(s, start, r.1)))
    decreases |s| - p
  {
    match e
    case None =>
    case Some(ev) =>
      StepKeepsNormalForm(s, start, p, ev);
      assert ev >= start + 1 && s[ev] == '/';
      assert LoopToken(s, start, ev + 1, FindSlash(s, ev + 1));
      LoopKeepsNormalForm(s, start, ev + 1, FindSlash(s, ev + 1));
  }

  /** The last token, `.` or `..` exactly when the segment there is. */
  lemma LastTokenSegments(s: string, p: nat)
    requires p <= |s|
    ensures s[p..] == "." <==> DotSegment(s, p) && p + 1 == |s|
    ensures s[p..] == ".." <==> DotDotSegment(s, p) && p + 2 == |s|
  {
    if DotSegment(s, p) && p + 1 == |s| {
      assert s[p..] == [s[p]];
    }
    if DotDotSegment(s, p) && p + 2 == |s| {
      assert s[p..] == [s[p], s[p + 1]];
    }
  }

  /** On a string in normal form the final token is kept too. */
  lemma TailKeepsNormalForm(s: string, start: nat, p: nat)
    requires start <= p <= |s| && (p == start || (p >= start + 2 && SegmentAt(s, start, p)))
    requires NoEmptyDirectories(s, start, |s|) && DotsResolved(s, start, |s| + 1)
    ensures Tail(s, start, p) == Ok(s)
  {
    LastTokenSegments(s, p);
    assert SegmentAt(s, start, p) && !AfterRoot(s, start, p);
    if s[p..] == ".." && p >= start + 2 {
      ParentDotDotAdjacent(s, start, p);
    }
  }

  /**
   * A path in normal form comes back unchanged: no `\`, an upper-case
   * drive letter if any, no `//` past the leader and drive, no `.` segment
   * (save one right after a root slash), and no `..` after a name.
   */
  lemma NormalFormIsFixed(path: string)
    requires Normalizable(path) && Prefixed(Unixify(path)).0 == path
    requires NoEmptyDirectories(path, Prefixed(Unixify(path)).1, |path|)
    requires DotsResolved(path, Prefixed(Unixify(path)).1, |path| + 1)
    ensures Normalize(path) == Ok(path)
  {
    var start := Prefixed(Unixify(path)).1;
    LoopKeepsNormalForm(path, start, start, FirstSlash(path, start));
    var r := Loop(path, start, start, FirstSlash(path, start));
    TailKeepsNormalForm(path, start, r.1);
  }

  /** A path that starts with a drive letter keeps it, upper-cased, with its colon. */
  lemma DriveLetterUpperCased(path: string)
    requires Normalizable(path)
    requires 2 <= |path| && IsAlpha(path[0]) && path[1] == ':'
    ensures Normalize(path).Ok? ==> var r := Normalize(path).value;
      2 <= |r| && r[0] == ToUpper(path[0]) && r[1] == ':'
  {
    var s1 := Unixify(path);
    assert LeaderLength(s1) == 0 && HasDrive(s1, 0);
    var (s2, start) := Prefixed(s1);
    assert start == 2 && s2[0] == ToUpper(path[0]) && s2[1] == ':';
    NormalizeGuarantees(path);
  }

  /** The loop on `a/../../b`: `a/../` goes, then `../` stays for want of a parent. */
  lemma UnresolvableParentLoop(s: string)
    requires s == "a/../../b"
    ensures Loop(s, 0, 0, Some(1)) == ("../b", 3)
  {
    assert FindSlash(s, 2) == Some(4) by {
      assert FindSlash(s, 3) == Some(4);
    }
    assert s[..0] + s[5..] == "../b";
    assert Step(s, 0, 2, 4) == ("../b", 0);
    assert FindSlash("../b", 3) == None;
    assert Step("../b", 0, 0, 2) == ("../b", 3);
    assert Loop(s, 0, 0, Some(1)) == Loop(s, 0, 2, Some(4)) by {
      assert Step(s, 0, 0, 1) == (s, 2);
    }
    assert Loop(s, 0, 2, Some(4)) == Loop("../b", 0, 0, Some(2)) by {
      assert FindSlash("../b", 0) == Some(2);
    }
  }

  /** `a/../../b`: the first `..` removes `a`, the second has no parent left. */
  lemma ExampleUnresolvableParentKept()
    ensures Normalize("a/../../b") == Ok("../b")
  {
    var s := "a/../../b";
    assert Unixify(s) == s;
    assert LeaderLength(s) == 0 && !HasDrive(s, 0);
    assert FindSlash(s, 1) == Some(1);
    UnresolvableParentLoop(s);
    assert "../b"[3..] == "b";
  }

  /** `c:\a\..\b`: backslashes become slashes, the drive letter is upper-cased and kept. */
  lemma ExampleDriveKept()
    ensures Normalize("c:\\a\\..\\b") == Ok("C:/b")
  {
    var s1 := "c:/a/../b";
    var s2 := "C:/a/../b";
    assert Unixify("c:\\a\\..\\b") == s1;
    assert LeaderLength(s1) == 0 && HasDrive(s1, 0);
    assert ToUpper('c') == 'C';
    assert s1[0 := 'C'] == s2;
    assert FindSlash(s2, 3) == Some(4);
    assert Step(s2, 2, 2, 4) == (s2, 5);
    assert FindSlash(s2, 5) == Some(7);
    assert BackScan(s2, 2, 3) == 3;
    assert s2[..3] + s2[8..] == "C:/b";
    assert Step(s2, 2, 5, 7) == ("C:/b", 3);
    assert FindSlash("C:/b", 3) == None;
    assert Loop(s2, 2, 2, Some(4)) == ("C:/b", 3);
    assert "C:/b"[3..] == "b";
  }

  /** `/x/..` would climb above the root: the only error normalization raises. */
  lemma ExampleClimbAboveRoot()
    ensures Normalize("/x/..") == Err(IllegalDotDotMessage)
  {
    var s := "/x/..";
    assert Unixify(s) == s;
    assert LeaderLength(s) == 0 && !HasDrive(s, 0);
    assert FindSlash(s, 1) == Some(2);
    assert Step(s, 0, 0, 2) == (s, 3);
    assert FindSlash(s, 3) == None;
    assert Loop(s, 0, 0, Some(2)) == (s, 3);
    assert s[3..] == "..";
    assert BackScan(s, 0, 1) == 1;
  }

  /** `/..` as the first token keeps its root slash and is left alone. */
  lemma ExampleRootParentKept()
    ensures Normalize("/..") == Ok("/..")
  {
    var s := "/..";
    assert Unixify(s) == s;
    assert LeaderLength(s) == 0 && !HasDrive(s, 0);
    assert FindSlash(s, 1) == None;
    assert s[0..] != "." && s[0..] != "..";
  }

  /** `x/..` resolves to the empty path. */
  lemma ExampleParentOfRelative()
    ensures Normalize("x/..") == Ok("")
  {
    var s := "x/..";
    assert Unixify(s) == s;
    assert LeaderLength(s) == 0 && !HasDrive(s, 0);
    assert FindSlash(s, 1) == Some(1);
    assert Step(s, 0, 0, 1) == (s, 2);
    assert FindSlash(s, 2) == None;
    assert Loop(s, 0, 0, Some(1)) == (s, 2);
    assert s[2..] == "..";
    assert BackScan(s, 0, 0) == 0;
  }

  /** `a/b/../c/.`: `b/..` goes, and so does the trailing `/.`. */
  lemma ExampleTrailingDot()
    ensures Normalize("a/b/../c/.") == Ok("a/c")
  {
    var s := "a/b/../c/.";
    assert Unixify(s) == s;
    assert LeaderLength(s) == 0 && !HasDrive(s, 0);
    assert FindSlash(s, 1) == Some(1);
    assert Step(s, 0, 0, 1) == (s, 2);
    assert FindSlash(s, 2) == Some(3);
    assert Step(s, 0, 2, 3) == (s, 4);
    assert FindSlash(s, 4) == Some(6);
    assert BackScan(s, 0, 2) == 2;
    assert s[..2] + s[7..] == "a/c/.";
    assert Step(s, 0, 4, 6) == ("a/c/.", 2);
    assert FindSlash("a/c/.", 2) == Some(3);
    assert Step("a/c/.", 0, 2, 3) == ("a/c/.", 4);
    assert FindSlash("a/c/.", 4) == None;
    assert Loop(s, 0, 0, Some(1)) == ("a/c/.", 4);
    assert "a/c/."[4..] == ".";
    assert "a/c/."[..3] == "a/c";
  }

  /** `//?/C:/a/./b`: the `//?/` leader and the drive are kept, the `.` goes. */
  lemma ExampleLongPathLeader()
    ensures Normalize("//?/C:/a/./b") == Ok("//?/C:/a/b")
  {
    var s := "//?/C:/a/./b";
    assert Unixify(s) == s;
    assert LeaderLength(s) == 4 && HasDrive(s, 4);
    assert ToUpper('C') == 'C';
    assert s[4 := 'C'] == s;
    assert FindSlash(s, 7) == Some(8);
    assert Step(s, 6, 6, 8) == (s, 9);
    assert FindSlash(s, 9) == Some(10);
    assert s[..9] + s[11..] == "//?/C:/a/b";
    assert Step(s, 6, 9, 10) == ("//?/C:/a/b", 9);
    assert FindSlash("//?/C:/a/b", 9) == None;
    assert Loop(s, 6, 6, Some(8)) == ("//?/C:/a/b", 9);
    assert "//?/C:/a/b"[9..] == "b";
  }

  /** `/./x`: a `.` in the first token, after the root slash, is not removed. */
  lemma ExampleRootDotKept()
    ensures Normalize("/./x") == Ok("/./x")
  {
    var s := "/./x";
    assert Unixify(s) == s;
    assert LeaderLength(s) == 0 && !HasDrive(s, 0);
    assert FindSlash(s, 1) == Some(2);
    assert Step(s, 0, 0, 2) == (s, 3);
    assert FindSlash(s, 3) == None;
    assert Loop(s, 0, 0, Some(2)) == (s, 3);
    assert s[3..] == "x";
  }

  // ---------------------------------------------------------------------
  // The in-place implementation on a buffer.

  /** A buffer holding the C string `a[..len]` and its terminator. */
  ghost predicate Holds(a: array<char>, len: nat)
    reads a
  {
    len < a.Length && a[len] == NUL && NoNul(a[..len])
  }

  /** `strlen(a)`: the offset of the first NUL. */
  method StrLen(a: array<char>) returns (n: nat)
    requires exists i :: 0 <= i < a.Length && a[i] == NUL
    ensures Holds(a, n)
    ensures CStrOf(a[..]) == a[..n]
  {
    n := 0;
    while a[n] != NUL
      invariant n < a.Length
      invariant forall k :: 0 <= k < n ==> a[k] != NUL
      invariant exists i :: n <= i < a.Length && a[i] == NUL
      decreases a.Length - n
    {
      n := n + 1;
    }
    CStrOfTerminated(a[..], n);
  }

  /** `strchr(a + from, '/')` in the string `a[..len]`. */
  method FindSlashIn(a: array<char>, from: nat, ghost len: nat) returns (e: Option<nat>)
    requires Holds(a, len) && from <= len
    ensures e == FindSlash(a[..len], from)
  {
    var i := from;
    while a[i] != NUL && a[i] != '/'
      invariant from <= i <= len
      invariant FindSlash(a[..len], i) == FindSlash(a[..len], from)
      decreases len - i
    {
      i := i + 1;
    }
    if a[i] == '/' {
      e := Some(i);
    } else {
      e := None;
    }
  }

  /** The backward scan to the start of the previous token, on the buffer. */
  method ScanBack(a: array<char>, start: nat, q: nat, ghost len: nat) returns (p: nat)
    requires Holds(a, len) && start <= q <= len
    ensures p == BackScan(a[..len], start, q)
  {
    p := q;
    while p > start && a[p - 1] != '/'
      invariant start <= p <= q
      invariant BackScan(a[..len], start, p) == BackScan(a[..len], start, q)
      decreases p
    {
      p := p - 1;
    }
  }

  /** `memmove(p, e + 1, len - (e - dstpath))`: the bytes `a[p..e]` and the slash at `e` go. */
  method Cut(a: array<char>, p: nat, e: nat, len: nat) returns (len': nat)
    requires Holds(a, len) && p <= e < len
    modifies a
    ensures len' == len - (e + 1 - p)
    ensures Holds(a, len')
    ensures a[..len'] == old(a[..p]) + old(a[e + 1..len])
  {
    ghost var s := a[..len];
    MemMoveDown(a, p, e + 1, len - e);
    len' := len - (e + 1 - p);
    assert a[..len'] == s[..p] + s[e + 1..len] by {
      assert a[..len'] == a[..len'][..p] + a[..len'][p..];
    }
    assert a[len'] == NUL;
    assert NoNul(a[..len']) by {
      forall k | 0 <= k < len'
        ensures a[k] != NUL
      {
        if k < p {
          assert a[k] == s[k];
        } else {
          assert a[k] == s[k + e + 1 - p];
        }
      }
    }
  }

  /** The `strchr(e, '\\')` loop: every backslash of `a[..len]` becomes a slash. */
  method UnixifyBuffer(a: array<char>, from: nat, len: nat)
    requires Holds(a, len) && from <= len
    modifies a
    ensures Holds(a, len)
    ensures a[..from] == old(a[..from]) && a[from..len] == Unixify(old(a[from..len]))
  {
    ghost var s := a[..len];
    var i := from;
    while i < len
      invariant from <= i <= len
      invariant a[len] == NUL
      invariant forall k :: 0 <= k < from ==> a[k] == s[k]
      invariant forall k :: from <= k < i ==> a[k] == (if s[k] == '\\' then '/' else s[k])
      invariant forall k :: i <= k < len ==> a[k] == s[k]
    {
      if a[i] == '\\' {
        a[i] := '/';
      }
      i := i + 1;
    }
  }

  /** One turn of the `while (e)` loop on the buffer, for the token ending at the slash `e`. */
  method StepBuffer(a: array<char>, start: nat, p0: nat, ev: nat, len0: nat) returns (len: nat, p: nat)
    requires Holds(a, len0) && start <= p0 <= ev < len0
    modifies a
    ensures Holds(a, len) && start <= p <= len
    ensures (a[..len], p) == Step(old(a[..len0]), start, p0, ev)
  {
    ghost var s := a[..len0];
    len, p := len0, p0;
    if ev == p {
      len := Cut(a, p, ev, len);
      assert a[..len] == s[..p] + s[ev + 1..];
    } else if ev - p == 1 && a[p] == '.' {
      len := Cut(a, p, ev, len);
      assert IsDotToken(s, p, ev) && a[..len] == s[..p] + s[ev + 1..];
    } else if ev - p == 2 && a[p] == '.' && a[p + 1] == '.' {
      assert !IsDotToken(s, p, ev) && IsDotDotToken(s, p, ev);
      len, p := ParentStepBuffer(a, start, p, ev, len);
    } else {
      assert !IsDotToken(s, p, ev) && !IsDotDotToken(s, p, ev);
      p := ev + 1;
    }
  }

  /** The turn for a `..` token: the segment before it goes, unless it is `..` too or there is none. */
  method ParentStepBuffer(a: array<char>, start: nat, p0: nat, ev: nat, len0: nat) returns (len: nat, p: nat)
    requires Holds(a, len0) && start <= p0 <= ev < len0
    requires ev - p0 == 2 && a[p0] == '.' && a[p0 + 1] == '.'
    modifies a
    ensures Holds(a, len) && start <= p <= len
    ensures (a[..len], p) == Step(old(a[..len0]), start, p0, ev)
  {
    ghost var s := a[..len0];
    assert !IsDotToken(s, p0, ev) && IsDotDotToken(s, p0, ev);
    len, p := len0, p0;
    if p >= start + 2 {
      p := ScanBack(a, start, p - 2, len);
      if !(a[p] == '.' && a[p + 1] == '.' && a[p + 2] == '/') {
        assert !ParentIsDotDot(s, p);
        len := Cut(a, p, ev, len);
        assert a[..len] == s[..p] + s[ev + 1..];
      } else {
        assert ParentIsDotDot(s, p);
        p := ev + 1;
      }
    } else {
      p := ev + 1;
    }
  }

  /** The `while (e)` loop on the buffer, from the first token at `start`. */
  method ResolveDots(a: array<char>, start: nat, len0: nat) returns (len: nat, p: nat)
    requires Holds(a, len0) && start <= len0
    modifies a
    ensures Holds(a, len)
    ensures (a[..len], p) == Loop(old(a[..len0]), start, start, FirstSlash(old(a[..len0]), start))
  {
    ghost var s0 := a[..len0];
    len := len0;
    p := start;
    var e := FindSlashIn(a, if a[p] != NUL then p + 1 else p, len);
    while e.Some?
      invariant Holds(a, len) && start <= p <= len
      invariant e.Some? ==> p <= e.value < len
      invariant Loop(a[..len], start, p, e) == Loop(s0, start, start, FirstSlash(s0, start))
      decreases len - p
    {
      len, p := StepBuffer(a, start, p, e.value, len);
      e := FindSlashIn(a, p, len);
    }
  }

  /** The final `.` or `..` token, then `*p = 0`. */
  method TrimTail(a: array<char>, start: nat, p: nat, len: nat) returns (outcome: Outcome, len': nat)
    requires Holds(a, len) && start <= p <= len
    modifies a
    ensures var res := Tail(old(a[..len]), start, p);
      (res.Ok? ==> outcome == Done && Holds(a, len') && a[..len'] == res.value)
      && (res.Err? ==> outcome == Thrown(res.message))
  {
    ghost var s := a[..len];
    len' := len;
    if len - p == 1 && a[p] == '.' {
      assert s[p..] == ".";
      var q := p;
      if q - 1 > start {
        q := q - 1;
      }
      a[q] := NUL;
      len' := q;
      assert a[..len'] == s[..q];
      outcome := Done;
    } else if len - p == 2 && a[p] == '.' && a[p + 1] == '.' {
      assert s[p..] == "..";
      outcome, len' := TrimParent(a, start, p, len);
    } else {
      assert s[p..] != "." && s[p..] != "..";
      outcome := Done;
    }
  }

  /** A final `..`: its parent goes with it, unless that is `../` or the root. */
  method TrimParent(a: array<char>, start: nat, p: nat, len: nat) returns (outcome: Outcome, len': nat)
    requires Holds(a, len) && start <= p <= len && a[..len][p..] == ".."
    modifies a
    ensures var res := Tail(old(a[..len]), start, p);
      (res.Ok? ==> outcome == Done && Holds(a, len') && a[..len'] == res.value)
      && (res.Err? ==> outcome == Thrown(res.message))
  {
    ghost var s := a[..len];
    len' := len;
    outcome := Done;
    if p >= start + 2 {
      var q := ScanBack(a, start, p - 2, len);
      if !(a[q] == '.' && a[q + 1] == '.' && a[q + 2] == '/') {
        if q - 1 > start {
          q := q - 1;
        } else if q - 1 == start {
          return Thrown(IllegalDotDotMessage), len';
        }
        a[q] := NUL;
        len' := q;
        assert a[..len'] == s[..q];
      }
    }
  }

  /** Skip a `//?/`, `//./` or `//server` leader, then a drive letter, which is upper-cased. */
  method SkipLeaderAndDrive(a: array<char>, len: nat) returns (start: nat)
    requires Holds(a, len) && LeaderReadsWithinString(a[..len])
    modifies a
    ensures Holds(a, len)
    ensures (a[..len], start) == Prefixed(old(a[..len]))
  {
    ghost var s1 := a[..len];
    var e: nat := 0;
    var canHaveDrive := true;
    if a[0] == '/' && a[1] == '/' && StrChr(".?", a[2]) && a[3] == '/' {
      e := 4;
    } else if a[0] == '/' && a[1] == '/' {
      e := 2;
      canHaveDrive := false;
    }
    assert e == LeaderLength(s1);
    if canHaveDrive && IsAlpha(a[e]) && a[e + 1] == ':' {
      a[e] := ToUpper(a[e]);
      e := e + 2;
    }
    start := e;
  }

  /**
   * Get the string to work on into the buffer: `memmove` of `path` and its
   * terminator when a path is given, `strlen` of the buffer otherwise.
   */
  method Load(a: array<char>, path: Option<string>) returns (len: nat)
    requires path.Some? ==> NoNul(path.value) && |path.value| + 1 <= a.Length
    requires path.None? ==> exists i :: 0 <= i < a.Length && a[i] == NUL
    modifies a
    ensures Holds(a, len)
    ensures a[..len] == if path.Some? then path.value else old(CStrOf(a[..]))
  {
    if path.Some? {
      len := |path.value|;
      var i := 0;
      while i < len
        invariant 0 <= i <= len
        invariant a[..i] == path.value[..i]
      {
        a[i] := path.value[i];
        i := i + 1;
      }
      a[len] := NUL;
      assert a[..len] == path.value;
    } else {
      len := StrLen(a);
    }
  }

  /** The pass on a buffer holding the string to normalize: unixify, leader, `..` and `.`, tail. */
  method NormalizeBufferIn(a: array<char>, len0: nat) returns (outcome: Outcome, len: nat)
    requires Holds(a, len0) && Normalizable(a[..len0])
    modifies a
    ensures var res := Normalize(old(a[..len0]));
      (res.Ok? ==> outcome == Done && Holds(a, len) && a[..len] == res.value)
      && (res.Err? ==> outcome == Thrown(res.message))
  {
    ghost var input := a[..len0];
    UnixifyBuffer(a, 0, len0);
    assert a[..len0] == Unixify(input) by {
      assert a[..len0] == a[0..len0] && input == input[0..len0];
    }
    var start := SkipLeaderAndDrive(a, len0);
    ghost var s2 := a[..len0];
    assert (s2, start) == Prefixed(Unixify(input));
    var len1, p := ResolveDots(a, start, len0);
    assert (a[..len1], p) == Loop(s2, start, start, FirstSlash(s2, start));
    outcome, len := TrimTail(a, start, p, len1);
  }

  /**
   * `fz_normalize_path(ctx, dst, bufsize, path)` with `bufsize` the length
   * of the array: `path` is copied into the buffer first when it is given,
   * and otherwise the buffer's own C string is normalized in place.
   */
  method NormalizePath(dst: array?<char>, path: Option<string>) returns (outcome: Outcome)
    requires path.Some? ==> NoNul(path.value)
    requires dst != null && path.None? ==> exists i :: 0 <= i < dst.Length && dst[i] == NUL
    requires dst != null ==> Normalizable(if path.Some? then path.value else CStrOf(dst[..]))
    modifies dst
    ensures dst == null ==> outcome == Thrown(NullBufferMessage)
    ensures dst != null && path.Some? && dst.Length < |path.value| + 1 ==>
      outcome == Thrown(OverrunMessage) && dst[..] == old(dst[..])
    ensures dst != null && (path.Some? ==> |path.value| + 1 <= dst.Length) ==>
      var res := Normalize(if path.Some? then path.value else old(CStrOf(dst[..])));
      (res.Ok? ==> outcome == Done && CStrOf(dst[..]) == res.value)
      && (res.Err? ==> outcome == Thrown(res.message))
  {
    if dst == null {
      return Thrown(NullBufferMessage);
    }
    if path.Some? && dst.Length < |path.value| + 1 {
      return Thrown(OverrunMessage);
    }
    var len := Load(dst, path);
    var len';
    outcome, len' := NormalizeBufferIn(dst, len);
    if outcome == Done {
      assert dst[..][..len'] == dst[..len'];
      CStrOfPrefix(dst[..], len');
    }
  }
}
