/**
 * `curl_sanitize_file_name` of tool_doswin.c on its `malloc`'d buffer:
 * the copy of the name, the root strip, the `for(; *p; ++p)` loop with its
 * in-place rewrites and `strmov` shifts, the trailing clip and the call to
 * `rename_if_reserved_dos_device_name`. Each piece is proved to do what
 * the value model in `CurlSanitize` says; `CurlSanitizeFileName` answers
 * exactly `SanitizedName`.
 */
module CurlSanitizeBuffer {
  import opened CStrings
  import opened CurlDosWin
  import opened CurlSanitize
  import MuNormalize

  /** The loop state held in the buffer and the loop's variables. */
  function StateOf(a: array<char>, m: nat, p: nat, sop: bool, dot: bool, colons: bool): Pass
    reads a
  {
    Pass(a[..], m, p, sop, dot, colons)
  }

  /**
   * `strmov(a + dst, a + src)`: `strlen(a + src) + 1` bytes moved down with
   * `memmove` when `dst < src`.
   */
  method StrMov(a: array<char>, ghost m: nat, dst: nat, src: nat)
    requires Terminated(a[..], m) && dst <= src <= m
    modifies a
    ensures a[..] == Moved(old(a[..]), m, dst, src)
  {
    if dst < src {
      var n := 0;
      while a[src + n] != NUL
        invariant src + n <= m
        invariant forall k :: src <= k < src + n ==> a[k] != NUL
        decreases m - (src + n)
      {
        n := n + 1;
      }
      assert n == m - src;
      MemMoveDown(a, dst, src, n + 1);
    } else {
      assert old(a[..])[..dst] + old(a[..])[src..m + 1] + old(a[..])[dst + (m - src) + 1..] == old(a[..]);
    }
  }

  /** `*p = '_'`, then on to the next byte. */
  method ReplaceIn(a: array<char>, ghost s: Pass, p: nat, ghost start: nat) returns (p': nat)
    requires Sound(s, start) && s.p < s.m && a[..] == s.buf && p == s.p
    modifies a
    ensures Pass(a[..], s.m, p', false, false, s.colons) == Replaced(s, start)
  {
    a[p] := '_';
    p' := p + 1;
  }

  /** The `.` branch of the loop. */
  method DotIn(a: array<char>, ghost s: Pass, p: nat, sop: bool, dot: bool, dotfiles: bool, ghost start: nat)
    returns (p': nat, sop': bool, dot': bool)
    requires Sound(s, start) && s.p < s.m && a[..] == s.buf && s.buf[s.p] == '.'
    requires p == s.p && sop == s.sop && dot == s.dot
    modifies a
    ensures Pass(a[..], s.m, p', sop', dot', s.colons) == DotStep(s, dotfiles, start)
  {
    if sop && !dotfiles {
      a[p] := '_';
      return p + 1, a[p + 1] == '.', true;
    }
    if !dot && a[p + 1] != NUL && a[p + 1] != '/' && a[p + 1] != '\\' {
      return p + 1, false, true;
    }
    if dot {
      a[p - 1] := '_';
    }
    a[p] := '_';
    return p + 1, false, dot;
  }

  /** `Collapsed` once the end `j` of the separator run and the moved buffer are known. */
  lemma CollapsedIs(s: Pass, start: nat, b1: seq<char>, j: nat, after: seq<char>, m': nat)
    requires Sound(s, start) && s.p < s.m && b1 == s.buf[s.p := '/']
    requires Terminated(b1, s.m) && j == SepRun(b1, s.m, s.p + 1)
    requires after == Moved(b1, s.m, s.p + 1, j) && m' == s.m - (j - (s.p + 1))
    ensures Pass(after, m', s.p, s.sop, s.dot, s.colons) == Collapsed(s, start)
  {
  }

  /** The scan over the separators that follow, from offset `i`. */
  method SkipSeparators(a: array<char>, ghost m: nat, i: nat) returns (j: nat)
    requires Terminated(a[..], m) && i <= m
    ensures j == SepRun(a[..], m, i)
  {
    j := i;
    while a[j] == '/' || a[j] == '\\'
      invariant j <= m && SepRun(a[..], m, i) == SepRun(a[..], m, j)
      decreases m - j
    {
      j := j + 1;
    }
  }

  /** `strmov(p, p + i)` over the separators from `p` on. */
  method SqueezeSeparators(a: array<char>, ghost b: seq<char>, ghost m: nat, i: nat)
    requires a[..] == b && Terminated(b, m) && i <= m
    modifies a
    ensures a[..] == Moved(b, m, i, SepRun(b, m, i))
  {
    var j := SkipSeparators(a, m, i);
    StrMov(a, m, i, j);
  }

  /** `*p = '/'`, then the squeeze of the separators after it. */
  method SlashAndSqueeze(a: array<char>, ghost b: seq<char>, ghost m: nat, p: nat)
    requires a[..] == b && Terminated(b, m) && p < m
    modifies a
    ensures var b1 := b[p := '/'];
      Terminated(b1, m) && a[..] == Moved(b1, m, p + 1, SepRun(b1, m, p + 1))
  {
    SlashKeepsTerminator(b, m, p);
    a[p] := '/';
    SqueezeSeparators(a, b[p := '/'], m, p + 1);
  }

  /** Writing a separator before the terminator keeps it the terminator. */
  lemma SlashKeepsTerminator(buf: seq<char>, m: nat, p: nat)
    requires Terminated(buf, m) && p < m
    ensures Terminated(buf[p := '/'], m)
  {
  }

  /**
   * `*p = '/'`, then `strmov(p + 1, p + i)` over the separators that
   * follow, when there are any.
   */
  method CollapseIn(a: array<char>, ghost s: Pass, p: nat, ghost start: nat) returns (ghost m': nat)
    requires Sound(s, start) && s.p < s.m && a[..] == s.buf && p == s.p
    modifies a
    ensures Pass(a[..], m', p, s.sop, s.dot, s.colons) == Collapsed(s, start)
  {
    SlashAndSqueeze(a, s.buf, s.m, p);
    ghost var b1 := s.buf[p := '/'];
    ghost var j := SepRun(b1, s.m, p + 1);
    m' := s.m - (j - (p + 1));
    CollapsedIs(s, start, b1, j, a[..], m');
  }

  /** `Trimmed` once the start `q` of the trailing run and the moved buffer are known. */
  lemma TrimmedIs(s: Pass, start: nat, q: nat, after: seq<char>, m': nat)
    requires Sound(s, start) && s.p < s.m && !s.dot
    requires q == TrailStart(s.buf, s.p) && after == Moved(s.buf, s.m, q, s.p) && m' == s.m - (s.p - q)
    ensures Pass(after, m', q + 1, true, false, false) == Trimmed(s, start)
  {
  }

  /**
   * The walk back from the cursor over spaces and dots, then the move of
   * the rest of the string down over them; the cursor ends after `q`.
   */
  method TrimIn(a: array<char>, ghost s: Pass, p: nat, ghost start: nat) returns (ghost m': nat, p': nat)
    requires Sound(s, start) && s.p < s.m && !s.dot && a[..] == s.buf && p == s.p
    modifies a
    ensures Pass(a[..], m', p', true, false, false) == Trimmed(s, start)
  {
    var q: nat := p;
    while q > 0 && (a[q - 1] == ' ' || a[q - 1] == '.')
      invariant q <= p && TrailStart(s.buf, p) == TrailStart(s.buf, q)
    {
      q := q - 1;
    }
    StrMov(a, s.m, q, p);
    m' := s.m - (p - q);
    p' := q + 1;
    TrimmedIs(s, start, q, a[..], m');
  }

  /** `ColonSqueezed` once the separator run and the moved buffer are known. */
  lemma ColonSqueezedIs(s: Pass, start: nat, j: nat, after: seq<char>, m': nat)
    requires Sound(s, start) && s.p < s.m && s.buf[s.p] == ':' && !s.dot && s.buf[s.p + 1] == '/'
    requires j == SepRun(s.buf, s.m, s.p + 2) && after == Moved(s.buf, s.m, s.p, j - 1) && m' == s.m - (j - 1 - s.p)
    ensures Pass(after, m', s.p, false, false, s.colons) == ColonSqueezed(s, start)
  {
  }

  /** `ColonStep` when the `:` goes. */
  lemma ColonStepSqueezes(s: Pass, start: nat)
    requires Sound(s, start) && s.p < s.m && s.buf[s.p] == ':' && !s.dot
    requires !s.sop && s.buf[s.p + 1] == '/'
    ensures ColonStep(s, start) == ColonSqueezed(s, start)
  {
  }

  /** `ColonStep` when the `:` becomes `_`. */
  lemma ColonStepReplaces(s: Pass, start: nat)
    requires Sound(s, start) && s.p < s.m && s.buf[s.p] == ':' && !s.dot
    requires s.sop || s.buf[s.p + 1] != '/'
    ensures ColonStep(s, start) == Replaced(s, start)
  {
  }

  /**
   * A banned `:`: `_` at the start of a segment or before anything but
   * `/`; otherwise `strmov(p, p + i - 1)` over it and all but the last of
   * the separators after it, the cursor staying put.
   */
  method ColonIn(a: array<char>, ghost s: Pass, p: nat, sop: bool, ghost start: nat) returns (ghost m': nat, p': nat)
    requires Sound(s, start) && s.p < s.m && s.buf[s.p] == ':' && !s.dot
    requires a[..] == s.buf && p == s.p && sop == s.sop
    modifies a
    ensures Pass(a[..], m', p', false, false, s.colons) == ColonStep(s, start)
  {
    if sop || a[p + 1] != '/' {
      ColonStepReplaces(s, start);
      p' := ReplaceIn(a, s, p, start);
      m' := s.m;
      return;
    }
    ColonStepSqueezes(s, start);
    m', p' := ColonSqueezeIn(a, s, p, start);
  }

  /** `strmov(p, p + i - 1)` over a `:` and all but the last of the separators after it. */
  method ColonSqueezeIn(a: array<char>, ghost s: Pass, p: nat, ghost start: nat) returns (ghost m': nat, p': nat)
    requires Sound(s, start) && s.p < s.m && s.buf[s.p] == ':' && !s.dot && s.buf[s.p + 1] == '/'
    requires a[..] == s.buf && p == s.p
    modifies a
    ensures Pass(a[..], m', p', false, false, s.colons) == ColonSqueezed(s, start)
  {
    var j := SkipSeparators(a, s.m, p + 2);
    var i := j - p;
    StrMov(a, s.m, p, p + i - 1);
    m' := s.m - (i - 1);
    p' := p;
    ColonSqueezedIs(s, start, j, a[..], m');
  }

  /** Two buffers that agree from `i` to their common terminator have the same leading run there. */
  lemma {:induction false} LeadingRunAgrees(b: seq<char>, b': seq<char>, m: nat, i: nat, dotfiles: bool)
    requires Terminated(b, m) && Terminated(b', m) && i <= m
    requires forall k :: i <= k <= m ==> b[k] == b'[k]
    ensures LeadingRunEnd(b, m, i, dotfiles) == LeadingRunEnd(b', m, i, dotfiles)
    decreases m - i
  {
    if Leading(b[i], dotfiles) {
      LeadingRunAgrees(b, b', m, i + 1, dotfiles);
    }
  }

  /** `LeadStep` once the end `e` of the run and the filled buffer are known. */
  lemma LeadStepIs(s: Pass, dotfiles: bool, start: nat, b1: seq<char>, e: nat, after: seq<char>)
    requires Sound(s, start) && s.p < s.m && !s.dot && b1 == s.buf[s.p := '_'] && Terminated(b1, s.m)
    requires e == LeadingRunEnd(b1, s.m, s.p + 1, dotfiles) && after == Filled(s.buf, s.p, e)
    ensures Pass(after, s.m, e, false, false, s.colons) == LeadStep(s, dotfiles, start)
  {
    LeadingRunOfSlot(s.buf, s.m, s.p, b1, dotfiles);
    LeadStepShape(s, dotfiles, start, e);
  }

  lemma LeadStepShape(s: Pass, dotfiles: bool, start: nat, e: nat)
    requires Sound(s, start) && s.p < s.m && !s.dot && e == LeadingRunEnd(s.buf, s.m, s.p + 1, dotfiles)
    ensures LeadStep(s, dotfiles, start) == Pass(Filled(s.buf, s.p, e), s.m, e, false, false, s.colons)
  {
  }

  /** Writing `_` at `p` leaves the leading run after `p` as it was. */
  lemma LeadingRunOfSlot(buf: seq<char>, m: nat, p: nat, b1: seq<char>, dotfiles: bool)
    requires Terminated(buf, m) && p < m && b1 == buf[p := '_']
    ensures Terminated(b1, m) && LeadingRunEnd(b1, m, p + 1, dotfiles) == LeadingRunEnd(buf, m, p + 1, dotfiles)
  {
    LeadingRunAgrees(b1, buf, m, p + 1, dotfiles);
  }

  /** A buffer holding `_` from `i` to `j` and the bytes of `buf` elsewhere is `Filled(buf, i, j)`. */
  lemma FilledIs(buf: seq<char>, i: nat, j: nat, after: seq<char>)
    requires i < j <= |buf| && |after| == |buf|
    requires forall k :: 0 <= k < |after| ==> after[k] == if i + 1 <= k < j then '_' else buf[i := '_'][k]
    ensures after == Filled(buf, i, j)
  {
    var r := Filled(buf, i, j);
    forall k | 0 <= k < |after| ensures after[k] == r[k] {
    }
  }

  /** The loop writing `_` over the leading spaces and dashes (and dots), from offset `i`. */
  method FillLeading(a: array<char>, ghost m: nat, i: nat, dotfiles: bool) returns (e: nat)
    requires Terminated(a[..], m) && i <= m
    modifies a
    ensures e == LeadingRunEnd(old(a[..]), m, i, dotfiles)
    ensures forall k :: 0 <= k < a.Length ==> a[k] == if i <= k < e then '_' else old(a[k])
  {
    ghost var b := a[..];
    e := i;
    while a[e] == ' ' || a[e] == '-' || (a[e] == '.' && !dotfiles)
      invariant i <= e <= m && LeadingRunEnd(b, m, i, dotfiles) == LeadingRunEnd(b, m, e, dotfiles)
      invariant forall k :: 0 <= k < a.Length ==> a[k] == if i <= k < e then '_' else b[k]
      decreases m - e
    {
      a[e] := '_';
      e := e + 1;
    }
  }

  /** `*p++ = '_'` over the run of spaces, dashes (and dots) that opens a segment. */
  method LeadIn(a: array<char>, ghost s: Pass, p: nat, dotfiles: bool, ghost start: nat) returns (p': nat)
    requires Sound(s, start) && s.p < s.m && !s.dot && a[..] == s.buf && p == s.p
    modifies a
    ensures Pass(a[..], s.m, p', false, false, s.colons) == LeadStep(s, dotfiles, start)
  {
    a[p] := '_';
    ghost var b1 := a[..];
    assert Terminated(b1, s.m);
    p' := FillLeading(a, s.m, p + 1, dotfiles);
    FilledIs(s.buf, p, p', a[..]);
    LeadStepIs(s, dotfiles, start, b1, p', a[..]);
  }

  /**
   * A separator under ALLOW_PATH: `*p = '/'`, the separators after it
   * dropped, then the spaces and dots before it.
   */
  method SepIn(a: array<char>, ghost s: Pass, p: nat, ghost start: nat) returns (ghost m': nat, p': nat)
    requires Sound(s, start) && s.p < s.m && IsSep(s.buf[s.p]) && !s.dot && a[..] == s.buf && p == s.p
    modifies a
    ensures Pass(a[..], m', p', true, false, false) == SepStep(s, start)
  {
    ghost var m1 := CollapseIn(a, s, p, start);
    m', p' := TrimIn(a, Collapsed(s, start), p, start);
  }

  /** The step on a `.`. */
  lemma StepDot(s: Pass, path: bool, dotfiles: bool, start: nat)
    requires Sound(s, start) && s.p < s.m && s.buf[s.p] == '.'
    ensures Step(s, path, dotfiles, start) == DotStep(s, dotfiles, start)
  {
  }

  /** The step on a separator under ALLOW_PATH. */
  lemma StepSep(s: Pass, path: bool, dotfiles: bool, start: nat)
    requires Sound(s, start) && s.p < s.m && IsSep(s.buf[s.p]) && path
    ensures Step(s, path, dotfiles, start) == SepStep(s.(dot := false), start)
  {
  }

  /** The step on a banned `:`. */
  lemma StepColon(s: Pass, path: bool, dotfiles: bool, start: nat)
    requires Sound(s, start) && s.p < s.m && s.buf[s.p] == ':' && !s.colons
    ensures Step(s, path, dotfiles, start) == ColonStep(s.(dot := false), start)
  {
  }

  /** The step on a leading byte at the start of a segment. */
  lemma StepLead(s: Pass, path: bool, dotfiles: bool, start: nat)
    requires Sound(s, start) && s.p < s.m && Plain(s.buf[s.p], s.colons) && s.sop && Leading(s.buf[s.p], dotfiles)
    ensures Step(s, path, dotfiles, start) == LeadStep(s.(dot := false), dotfiles, start)
  {
  }

  /**
   * One turn of `for(; *p; ++p)`, the `++p` included: the branches in the
   * order of the source, each proved against the matching step function.
   */
  method StepIn(a: array<char>, ghost s: Pass, p: nat, sop: bool, dot: bool, colons: bool,
                path: bool, dotfiles: bool, ghost start: nat)
    returns (ghost m': nat, p': nat, sop': bool, dot': bool, colons': bool)
    requires Sound(s, start) && s.p < s.m && a[..] == s.buf
    requires p == s.p && sop == s.sop && dot == s.dot && colons == s.colons
    modifies a
    ensures Pass(a[..], m', p', sop', dot', colons') == Step(s, path, dotfiles, start)
  {
    var c := a[p];
    m', colons' := s.m, colons;
    if c == '.' {
      StepDot(s, path, dotfiles, start);
      p', sop', dot' := DotIn(a, s, p, sop, dot, dotfiles, start);
      return;
    }
    ghost var s1 := s.(dot := false);
    dot' := false;
    IsBannedMeansInSet(c);
    if (c == '/' || c == '\\') && path {
      StepSep(s, path, dotfiles, start);
      m', p' := SepIn(a, s1, p, start);
      sop', colons' := true, false;
    } else if c == '/' || c == '\\' || IsControl(c) {
      StepReplaces(s, path, dotfiles, start);
      p' := ReplaceIn(a, s, p, start);
      sop' := false;
    } else if !colons && c == ':' {
      StepColon(s, path, dotfiles, start);
      m', p' := ColonIn(a, s1, p, sop, start);
      sop' := false;
    } else if c in BannedChars {
      StepReplaces(s, path, dotfiles, start);
      p' := ReplaceIn(a, s, p, start);
      sop' := false;
    } else if sop && Leading(c, dotfiles) {
      StepLead(s, path, dotfiles, start);
      p' := LeadIn(a, s1, p, dotfiles, start);
      sop' := false;
    } else {
      StepKeeps(s, path, dotfiles, start);
      p', sop' := p + 1, false;
    }
  }

  /** The loop `for(; *p; ++p)`, run until the cursor reaches the terminator. */
  method SanitizeLoop(a: array<char>, ghost s: Pass, p: nat, sop: bool, dot: bool, colons: bool,
                      path: bool, dotfiles: bool, ghost start: nat)
    returns (ghost m': nat, colons': bool)
    requires Sound(s, start) && a[..] == s.buf
    requires p == s.p && sop == s.sop && dot == s.dot && colons == s.colons
    modifies a
    ensures var e := Run(s, path, dotfiles, start); a[..] == e.buf && m' == e.m && colons' == e.colons
  {
    var p, sop, dot := p, sop, dot;
    m', colons' := s.m, colons;
    while a[p] != NUL
      invariant Sound(Pass(a[..], m', p, sop, dot, colons'), start)
      invariant Run(Pass(a[..], m', p, sop, dot, colons'), path, dotfiles, start) == Run(s, path, dotfiles, start)
      decreases m' - p
    {
      ghost var cur := Pass(a[..], m', p, sop, dot, colons');
      m', p, sop, dot, colons' := StepIn(a, cur, p, sop, dot, colons', path, dotfiles, start);
    }
  }

  /** `!strncmp(target, "\\\\?\\", 4)` on a terminated buffer. */
  method HasLiteralPrefix(a: array<char>, ghost m: nat) returns (b: bool)
    requires Terminated(a[..], m)
    ensures b == (LiteralPrefix(a[..]) && m >= 4)
  {
    b := a[0] == '\\' && a[1] == '\\' && a[2] == '?' && a[3] == '\\';
  }

  /**
   * `target = malloc(len + 1)`, the copy of the first `len` bytes of the
   * name, and under ALLOW_ONLY_RELATIVE_PATH the root strip; then the
   * loop's first offset.
   */
  method LoadIn(name: string, len: nat, flags: Flags) returns (a: array<char>, ghost m: nat, start: nat)
    requires NoNul(name) && len <= |name|
    ensures fresh(a)
    ensures var s := Loaded(name[..len], flags); a[..] == s.buf && m == s.m && start == s.p
  {
    ghost var t := name[..len];
    a := new char[len + 1](k requires 0 <= k < len + 1 => if k < len then name[k] else NUL);
    assert a[..] == t + [NUL];
    assert Terminated(a[..], len);
    m := len;
    var f := EffectiveFlags(flags);
    if flags.onlyRelative {
      var lit := HasLiteralPrefix(a, m);
      var q := SkipSeparators(a, m, if lit then 4 else 0);
      StrMov(a, m, 0, q);
      m := len - q;
    }
    var lit := HasLiteralPrefix(a, m);
    start := if f.path && !f.onlyRelative && lit then 4 else 0;
  }

  /**
   * The trailing clip without ALLOW_PATH: the walk back from `target[len]`
   * over spaces and dots, and a NUL at the last one reached.
   */
  method ClipIn(a: array<char>, len: nat, ghost m: nat)
    requires 0 < len < a.Length && m < a.Length && a[m] == NUL
    modifies a
    ensures a[..] == Clipped(old(a[..]), len) && a[m] == NUL
  {
    ghost var b := a[..];
    var q := len;
    while q > 0 && (a[q - 1] == ' ' || a[q - 1] == '.')
      invariant q <= len && TrailStart(b, len) == TrailStart(b, q)
    {
      q := q - 1;
    }
    if q < len {
      a[q] := NUL;
    }
  }

  /** The trailing clip without ALLOW_PATH, then `strlen` on what is left. */
  method FinishIn(a: array<char>, len: nat, path: bool, ghost e: Pass) returns (text: string)
    requires a[..] == e.buf && Terminated(e.buf, e.m) && len < |e.buf|
    modifies a
    ensures text == Finished(e, len, path)
  {
    if !path && len > 0 {
      ClipIn(a, len, e.m);
    }
    var n := MuNormalize.StrLen(a);
    text := a[..n];
  }

  /** `Cleaned` once the loop's end state and the text left after the clip are known. */
  lemma CleanedIs(t: string, flags: Flags, e: Pass, text: string)
    requires NoNul(t)
    requires var s0 := Loaded(t, flags); var f := EffectiveFlags(flags);
      e == Run(s0, f.path, f.dotfiles, s0.p)
    requires text == Finished(e, |t|, EffectiveFlags(flags).path)
    ensures Cleaned(t, flags) == Cleaning(text, EffectiveFlags(flags).(colons := e.colons))
  {
  }

  /**
   * The middle of `curl_sanitize_file_name`: the copy into `target`, the
   * root strip, the loop and the trailing clip, read back with `strlen`;
   * `colons` is what is left of ALLOW_COLONS.
   */
  method CleanText(name: string, len: nat, flags: Flags) returns (text: string, colons: bool)
    requires NoNul(name) && len <= |name|
    ensures Cleaned(name[..len], flags) == Cleaning(text, EffectiveFlags(flags).(colons := colons))
  {
    ghost var t := name[..len];
    var f := EffectiveFlags(flags);
    var a, m, start := LoadIn(name, len, flags);
    ghost var s0 := Loaded(t, flags);
    ghost var e := Run(s0, f.path, f.dotfiles, start);
    ghost var m';
    m', colons := SanitizeLoop(a, s0, start, true, false, f.colons, f.path, f.dotfiles, start);
    text := FinishIn(a, len, f.path, e);
    CleanedIs(t, flags, e, text);
  }

  /** The reserved-name renaming unless ALLOW_RESERVED, then the length check. */
  method SettleIn(text: string, flags: Flags, max: nat, longPaths: bool) returns (reply: Reply)
    requires NoNul(text)
    ensures reply == Settled(Cleaning(text, flags), max, longPaths)
  {
    if flags.reserved {
      return Reply(ErrOk, Some(text));
    }
    var r := RenameIfReservedDosDeviceName(true, Some(text), flags, longPaths);
    if r.code != ErrOk {
      return Reply(r.code, None);
    }
    if |r.sanitized.value| > max {
      return Reply(ErrInvalidPath, None);
    }
    return r;
  }

  /**
   * `curl_sanitize_file_name(sanitized, file_name, flags)`; `slot` is
   * false for a null `sanitized`, `None` stands for a null `file_name`,
   * and `longPaths` for the Windows version query. It answers exactly what
   * `SanitizedName` says, so every property proved of that holds of it.
   */
  method CurlSanitizeFileName(slot: bool, name: Option<string>, flags: Flags, longPaths: bool)
    returns (reply: Reply)
    requires name.Some? ==> NoNul(name.value)
    ensures !slot ==> reply == Reply(ErrBadArgument, None)
    ensures slot ==> reply == SanitizedName(name, flags, longPaths)
  {
    if !slot || name.None? {
      return Reply(ErrBadArgument, None);
    }
    var s := name.value;
    var len := |s|;
    var max := MaxSanitizedLen(s, flags, longPaths);
    if len > max {
      if !flags.truncate {
        return Reply(ErrInvalidPath, None);
      }
      var dry := TruncateDryrun(name, max);
      if dry != ErrOk {
        return Reply(ErrInvalidPath, None);
      }
      len := max;
    }
    ghost var t := RenameInput(s, flags, longPaths);
    assert t == s[..len];
    var text, colons := CleanText(s, len, flags);
    reply := SettleIn(text, EffectiveFlags(flags).(colons := colons), max, longPaths);
  }
}
