/**
 * `curl_sanitize_file_name` of tool_doswin.c: the Windows file name
 * sanitizer of the curl tool, as this repository extends it with
 * ALLOW_ONLY_RELATIVE_PATH, ALLOW_DOTFILES, separator collapsing and the
 * treatment of leading dashes.
 *
 * The loop works in place on a buffer holding the (possibly cut) name and
 * its terminator. Its `strmov` calls shorten the string without touching
 * the bytes after the new terminator, so the buffer is modelled whole, as
 * a sequence with the string length `m` beside it: the trailing clip that
 * follows the loop still reads those stale bytes.
 */
module CurlSanitize {
  import opened CStrings
  import opened CurlDosWin
  import MuNormalize

  /** Bytes 1..31 and DEL. */
  predicate IsControl(c: char) {
    1 <= c as int <= 31 || c as int == 0x7F
  }

  /** The set handed to `strchr` in the loop. */
  const BannedChars: string := "|<>\"&'~`?*$^;#%"

  /** `strchr(BannedChars, c)` for a byte other than NUL, spelled out. */
  predicate IsBanned(c: char) {
    c == '|' || c == '<' || c == '>' || c == '"' || c == '&' || c == '\'' || c == '~' || c == '`' ||
    c == '?' || c == '*' || c == '$' || c == '^' || c == ';' || c == '#' || c == '%'
  }

  lemma IsBannedMeansInSet(c: char)
    ensures IsBanned(c) <==> c in BannedChars
  {
  }

  predicate SpaceOrDot(c: char) {
    c == ' ' || c == '.'
  }

  /** What the loop turns into `_` at the start of a path segment. */
  predicate Leading(c: char, dotfiles: bool) {
    c == ' ' || c == '-' || (c == '.' && !dotfiles)
  }

  /** `buf[m]` is the first NUL of the buffer: `m` is the string length. */
  predicate Terminated(buf: seq<char>, m: nat) {
    m < |buf| && buf[m] == NUL && forall k :: 0 <= k < m ==> buf[k] != NUL
  }

  /**
   * `strmov(buf + dst, buf + src)`: the string at `src`, terminator
   * included, moved down to `dst`; the bytes after the new terminator stay.
   */
  function Moved(buf: seq<char>, m: nat, dst: nat, src: nat): (r: seq<char>)
    requires Terminated(buf, m) && dst <= src <= m
    ensures |r| == |buf| && Terminated(r, m - (src - dst))
  {
    buf[..dst] + buf[src..m + 1] + buf[dst + (m - src) + 1..]
  }

  /** The first offset from `i` on that does not hold a `/` or `\`. */
  function SepRun(buf: seq<char>, m: nat, i: nat): (j: nat)
    requires Terminated(buf, m) && i <= m
    ensures i <= j <= m && !IsSep(buf[j])
    ensures forall k :: i <= k < j ==> IsSep(buf[k])
    decreases m - i
  {
    if !IsSep(buf[i]) then i else SepRun(buf, m, i + 1)
  }

  /** The start of the run of spaces and dots that ends at `p`. */
  function TrailStart(buf: seq<char>, p: nat): (q: nat)
    requires p <= |buf|
    ensures q <= p && (q > 0 ==> !SpaceOrDot(buf[q - 1]))
    ensures forall k :: q <= k < p ==> SpaceOrDot(buf[k])
  {
    if p == 0 || !SpaceOrDot(buf[p - 1]) then p else TrailStart(buf, p - 1)
  }

  /** The end of the run of leading bytes that starts at `i`. */
  function LeadingRunEnd(buf: seq<char>, m: nat, i: nat, dotfiles: bool): (j: nat)
    requires Terminated(buf, m) && i <= m
    ensures i <= j <= m && !Leading(buf[j], dotfiles)
    ensures forall k :: i <= k < j ==> Leading(buf[k], dotfiles)
    decreases m - i
  {
    if !Leading(buf[i], dotfiles) then i else LeadingRunEnd(buf, m, i + 1, dotfiles)
  }

  /** `buf` with `[i, j)` overwritten by `_`. */
  function Filled(buf: seq<char>, i: nat, j: nat): (r: seq<char>)
    requires i <= j <= |buf|
    ensures |r| == |buf|
    ensures forall k :: 0 <= k < |r| ==> r[k] == if i <= k < j then '_' else buf[k]
  {
    buf[..i] + seq(j - i, _ => '_') + buf[j..]
  }

  /** A buffer that starts with the literal path prefix `\\?\`. */
  predicate LiteralPrefix(buf: seq<char>) {
    |buf| >= 4 && buf[0] == '\\' && buf[1] == '\\' && buf[2] == '?' && buf[3] == '\\'
  }

  /**
   * The state of the main loop: the buffer, the string length, the cursor
   * `p`, `s_o_p` (at the start of a path segment), `dot` (the byte before
   * was a kept or replaced `.`), and whether colons are still allowed.
   */
  datatype Pass = Pass(buf: seq<char>, m: nat, p: nat, sop: bool, dot: bool, colons: bool)

  /**
   * A loop state: the terminator at `m`, the cursor between `start` and
   * `m`, a byte before the cursor when `dot` is set, and the skipped
   * prefix `\\?\` in place when `start` is 4.
   */
  predicate Sound(s: Pass, start: nat) {
    Terminated(s.buf, s.m) && start <= s.p <= s.m && (s.dot ==> s.p > start) &&
    (start == 0 || (start == 4 && LiteralPrefix(s.buf)))
  }

  /** The byte at the cursor becomes `_`. */
  function Replaced(s: Pass, start: nat): (r: Pass)
    requires Sound(s, start) && s.p < s.m
    ensures Sound(r, start) && r.m - r.p < s.m - s.p && |r.buf| == |s.buf| && r.m <= s.m
  {
    s.(buf := s.buf[s.p := '_'], p := s.p + 1, sop := false, dot := false)
  }

  /**
   * A `.`: at the start of a segment without ALLOW_DOTFILES it becomes
   * `_`; a first dot followed by more of the name stays; any other dot
   * becomes `_`, and so does a dot kept just before it.
   */
  function DotStep(s: Pass, dotfiles: bool, start: nat): (r: Pass)
    requires Sound(s, start) && s.p < s.m && s.buf[s.p] == '.'
    ensures Sound(r, start) && r.m - r.p < s.m - s.p && |r.buf| == |s.buf| && r.m <= s.m
  {
    var b, p := s.buf, s.p;
    if s.sop && !dotfiles then s.(buf := b[p := '_'], p := p + 1, dot := true, sop := b[p + 1] == '.')
    else if !s.dot && b[p + 1] != NUL && !IsSep(b[p + 1]) then s.(p := p + 1, dot := true, sop := false)
    else
      var b' := if s.dot then b[p - 1 := '_'] else b;
      s.(buf := b'[p := '_'], p := p + 1, sop := false)
  }

  /**
   * A separator under ALLOW_PATH: it becomes `/`, the separators after it
   * are dropped, and so are the spaces and dots before it; colons are
   * banned from here on and a new segment starts.
   */
  function SepStep(s: Pass, start: nat): (r: Pass)
    requires Sound(s, start) && s.p < s.m && IsSep(s.buf[s.p]) && !s.dot
    ensures Sound(r, start) && r.m - r.p < s.m - s.p && |r.buf| == |s.buf| && r.m <= s.m
  {
    Trimmed(Collapsed(s, start), start)
  }

  /**
   * `strmov(dst, src)` in a loop state, the cursor moving to `p`: the
   * bytes from `start` on may move, the prefix before it stays.
   */
  function Squeezed(s: Pass, dst: nat, src: nat, p: nat, start: nat): (r: Pass)
    requires Sound(s, start) && start <= dst <= src <= s.m
    requires start <= p <= s.m - (src - dst) && (s.dot ==> p > start)
    ensures Sound(r, start) && r.p == p && r.m == s.m - (src - dst) && |r.buf| == |s.buf|
    ensures r.sop == s.sop && r.dot == s.dot && r.colons == s.colons
  {
    s.(buf := Moved(s.buf, s.m, dst, src), m := s.m - (src - dst), p := p)
  }

  /** `*p = '/'`, then `strmov(p + 1, p + i)` over the separators that follow. */
  function Collapsed(s: Pass, start: nat): (r: Pass)
    requires Sound(s, start) && s.p < s.m
    ensures Sound(r, start) && r.p == s.p < r.m <= s.m && |r.buf| == |s.buf| && r.dot == s.dot
  {
    var s1 := s.(buf := s.buf[s.p := '/']);
    var j := SepRun(s1.buf, s1.m, s1.p + 1);
    Squeezed(s1, s1.p + 1, j, s1.p, start)
  }

  /** `strmov(q, p)` over the spaces and dots that end the segment before `p`. */
  function Trimmed(s: Pass, start: nat): (r: Pass)
    requires Sound(s, start) && s.p < s.m && !s.dot
    ensures Sound(r, start) && r.m - r.p < s.m - s.p && |r.buf| == |s.buf| && r.m <= s.m
  {
    var q := TrailStart(s.buf, s.p);
    assert start > 0 ==> s.buf[start - 1] == '\\';
    Squeezed(s, q, s.p, q + 1, start).(sop := true, dot := false, colons := false)
  }

  /**
   * A banned `:`: it becomes `_` at the start of a segment or when no `/`
   * follows; otherwise it is removed with all but the last separator after
   * it, and the cursor stays on that separator.
   */
  function ColonStep(s: Pass, start: nat): (r: Pass)
    requires Sound(s, start) && s.p < s.m && s.buf[s.p] == ':' && !s.dot
    ensures Sound(r, start) && r.m - r.p < s.m - s.p && |r.buf| == |s.buf| && r.m <= s.m
  {
    if s.sop || s.buf[s.p + 1] != '/' then Replaced(s, start) else ColonSqueezed(s, start)
  }

  /**
   * A `:` followed by `/` inside a segment: `strmov(p, p + i - 1)` over it
   * and all but the last of the separators after it, the cursor staying put.
   */
  function ColonSqueezed(s: Pass, start: nat): (r: Pass)
    requires Sound(s, start) && s.p < s.m && s.buf[s.p] == ':' && !s.dot && s.buf[s.p + 1] == '/'
    ensures Sound(r, start) && r.m - r.p < s.m - s.p && |r.buf| == |s.buf| && r.m <= s.m
    ensures r.p == s.p && !r.sop && r.colons == s.colons
  {
    var j := SepRun(s.buf, s.m, s.p + 2);
    Pass(Moved(s.buf, s.m, s.p, j - 1), s.m - (j - 1 - s.p), s.p, false, false, s.colons)
  }

  /** A run of spaces and dashes (and dots) opening a segment becomes `_`s. */
  function LeadStep(s: Pass, dotfiles: bool, start: nat): (r: Pass)
    requires Sound(s, start) && s.p < s.m && !s.dot
    ensures Sound(r, start) && r.m - r.p < s.m - s.p && |r.buf| == |s.buf| && r.m <= s.m
  {
    var e := LeadingRunEnd(s.buf, s.m, s.p + 1, dotfiles);
    s.(buf := Filled(s.buf, s.p, e), p := e, sop := false)
  }

  /** One turn of the `for(; *p; ++p)` loop of `curl_sanitize_file_name`. */
  function Step(s: Pass, path: bool, dotfiles: bool, start: nat): (r: Pass)
    requires Sound(s, start) && s.p < s.m
    ensures Sound(r, start) && r.m - r.p < s.m - s.p && |r.buf| == |s.buf| && r.m <= s.m
  {
    var c := s.buf[s.p];
    if c == '.' then DotStep(s, dotfiles, start)
    else
      var s := s.(dot := false);
      if IsSep(c) then (if path then SepStep(s, start) else Replaced(s, start))
      else if IsControl(c) then Replaced(s, start)
      else if !s.colons && c == ':' then ColonStep(s, start)
      else if IsBanned(c) then Replaced(s, start)
      else if s.sop && Leading(c, dotfiles) then LeadStep(s, dotfiles, start)
      else s.(p := s.p + 1, sop := false)
  }

  /** The loop, run until the cursor reaches the terminator. */
  function Run(s: Pass, path: bool, dotfiles: bool, start: nat): (r: Pass)
    requires Sound(s, start)
    ensures Sound(r, start) && r.p == r.m && |r.buf| == |s.buf| && r.m <= s.m
    decreases s.m - s.p
  {
    if s.p == s.m then s else Run(Step(s, path, dotfiles, start), path, dotfiles, start)
  }

  /**
   * The trailing clip without ALLOW_PATH: the spaces and dots before
   * `buf[len]` are cut off, `len` being the length the name had before
   * the loop.
   */
  function Clipped(buf: seq<char>, len: nat): (r: seq<char>)
    requires 0 < len < |buf|
    ensures |r| == |buf|
  {
    var q := TrailStart(buf, len);
    if q < len then buf[q := NUL] else buf
  }

  /** ALLOW_ONLY_RELATIVE_PATH implies ALLOW_PATH and bans colons. */
  function EffectiveFlags(flags: Flags): (f: Flags)
    ensures f.onlyRelative == flags.onlyRelative && f.dotfiles == flags.dotfiles
    ensures f.reserved == flags.reserved && f.truncate == flags.truncate
    ensures f.path == (flags.path || flags.onlyRelative)
    ensures f.colons == (flags.colons && !flags.onlyRelative)
  {
    if flags.onlyRelative then flags.(path := true, colons := false) else flags
  }

  /** Where the relative-only strip moves the name from: past `\\?\` and every leading separator. */
  function RootEnd(buf: seq<char>, m: nat): (k: nat)
    requires Terminated(buf, m)
    ensures k <= m && !IsSep(buf[k])
    ensures var b := if LiteralPrefix(buf) && m >= 4 then 4 else 0;
      b <= k && forall j :: b <= j < k ==> IsSep(buf[j])
  {
    SepRun(buf, m, if LiteralPrefix(buf) && m >= 4 then 4 else 0)
  }

  /** The text after the loop and the clip, and the flags the rest of the function sees. */
  datatype Cleaning = Cleaning(text: string, flags: Flags)

  /** The loop's first offset: past `\\?\` under ALLOW_PATH alone. */
  function LoopStart(buf: seq<char>, m: nat, f: Flags): (start: nat)
    requires Terminated(buf, m)
    ensures start == 0 || (start == 4 && LiteralPrefix(buf) && start <= m)
  {
    if f.path && !f.onlyRelative && LiteralPrefix(buf) && m >= 4 then 4 else 0
  }

  /**
   * The loop's first state: the name copied with its terminator, its root
   * stripped under ALLOW_ONLY_RELATIVE_PATH, the cursor at the loop's first
   * offset, at the start of a segment.
   */
  function Loaded(t: string, flags: Flags): (s: Pass)
    requires NoNul(t)
    ensures Sound(s, s.p) && s.m <= |t| && |s.buf| == |t| + 1 && s.sop && !s.dot
    ensures s.colons == EffectiveFlags(flags).colons
    ensures s.p == 4 <==> KeepsLiteralPrefix(t, flags)
  {
    var f := EffectiveFlags(flags);
    var len := |t|;
    var buf0 := t + [NUL];
    assert Terminated(buf0, len);
    var k := RootEnd(buf0, len);
    var buf1 := if flags.onlyRelative then Moved(buf0, len, 0, k) else buf0;
    var m1 := if flags.onlyRelative then len - k else len;
    assert !flags.onlyRelative ==> (LiteralPrefix(buf1) <==> LiteralPrefix(t));
    Pass(buf1, m1, LoopStart(buf1, m1, f), true, false, f.colons)
  }

  /**
   * Whether the loop skips the literal prefix `\\?\` of `t`: ALLOW_PATH
   * without ALLOW_ONLY_RELATIVE_PATH.
   */
  predicate KeepsLiteralPrefix(t: string, flags: Flags) {
    flags.path && !flags.onlyRelative && LiteralPrefix(t)
  }

  /** The string the loop leaves, after the trailing clip when there is one. */
  function Finished(e: Pass, len: nat, path: bool): (text: string)
    requires Terminated(e.buf, e.m) && len < |e.buf|
    ensures |text| <= e.m && NoNul(text) && forall k :: 0 <= k < |text| ==> text[k] == e.buf[k]
    ensures path ==> |text| == e.m
  {
    var buf2 := if !path && len > 0 then Clipped(e.buf, len) else e.buf;
    var text := CStrOf(buf2);
    assert buf2[e.m] == NUL;
    assert forall k :: 0 <= k < |text| ==> text[k] == buf2[..|text|][k];
    text
  }

  /**
   * The body of `curl_sanitize_file_name` between the copy of the name
   * into `target` and the reserved-name check.
   */
  function Cleaned(t: string, flags: Flags): (r: Cleaning)
    requires NoNul(t)
    ensures NoNul(r.text) && |r.text| <= |t|
  {
    var f := EffectiveFlags(flags);
    var s0 := Loaded(t, flags);
    var e := Run(s0, f.path, f.dotfiles, s0.p);
    Cleaning(Finished(e, |t|, f.path), f.(colons := e.colons))
  }

  /**
   * What `curl_sanitize_file_name(&sanitized, file_name, flags)` answers,
   * `None` standing for a null `file_name`.
   */
  function SanitizedName(name: Option<string>, flags: Flags, longPaths: bool): Reply
    requires name.Some? ==> NoNul(name.value)
  {
    if name.None? then Reply(ErrBadArgument, None)
    else
      var s := name.value;
      var max := MaxSanitizedLen(s, flags, longPaths);
      if |s| > max && (!flags.truncate || Dryrun(Some(s), max) != ErrOk) then Reply(ErrInvalidPath, None)
      else Settled(Cleaned(RenameInput(s, flags, longPaths), flags), max, longPaths)
  }

  /**
   * The end of `curl_sanitize_file_name`: unless ALLOW_RESERVED, the
   * reserved-name renaming of the cleaned text, then the length check.
   */
  function Settled(c: Cleaning, max: nat, longPaths: bool): Reply
    requires NoNul(c.text)
  {
    if c.flags.reserved then Reply(ErrOk, Some(c.text))
    else
      var r := Renamed(Some(c.text), c.flags, longPaths);
      if r.code != ErrOk then Reply(r.code, None)
      else if |r.sanitized.value| > max then Reply(ErrInvalidPath, None)
      else r
  }

  // ---------------------------------------------------------------------
  // What the loop leaves behind.

  /**
   * A byte the loop may leave after `start`: no control byte, nothing of
   * the banned set, no `\`, no `/` without ALLOW_PATH, and no `:` when
   * colons were not allowed to begin with.
   */
  predicate Allowed(c: char, path: bool, colons: bool) {
    !IsControl(c) && !IsBanned(c) && c != '\\' && (!path ==> c != '/') && (!colons ==> c != ':')
  }

  /** The bytes from `start` up to the cursor are done with, and colons are never allowed back. */
  predicate Clean(s: Pass, path: bool, colons: bool, start: nat) {
    Sound(s, start) && (s.colons ==> colons) &&
    forall k :: start <= k < s.p ==> Allowed(s.buf[k], path, colons)
  }

  /** Each turn of the loop leaves one more byte done with, or moves done bytes down. */
  lemma StepKeepsClean(s: Pass, path: bool, dotfiles: bool, colons: bool, start: nat)
    requires Clean(s, path, colons, start) && s.p < s.m
    ensures Clean(Step(s, path, dotfiles, start), path, colons, start)
  {
    var c := s.buf[s.p];
    var s' := s.(dot := false);
    if c == '.' {
      DotStepKeepsClean(s, dotfiles, path, colons, start);
    } else if IsSep(c) && path {
      SepStepKeepsClean(s', colons, start);
    } else if IsSep(c) || IsControl(c) || (!(!s.colons && c == ':') && IsBanned(c)) {
      ReplacedKeepsClean(s', path, colons, start);
    } else if !s.colons && c == ':' {
      ColonStepKeepsClean(s', path, colons, start);
    } else if s.sop && Leading(c, dotfiles) {
      LeadStepKeepsClean(s', path, dotfiles, colons, start);
    } else {
      KeptKeepsClean(s', path, colons, start);
    }
  }

  /** A byte replaced by `_` is done with. */
  lemma ReplacedKeepsClean(s: Pass, path: bool, colons: bool, start: nat)
    requires Clean(s, path, colons, start) && s.p < s.m
    ensures Clean(Replaced(s, start), path, colons, start)
  {
  }

  /** A leading run overwritten by `_`s is done with. */
  lemma LeadStepKeepsClean(s: Pass, path: bool, dotfiles: bool, colons: bool, start: nat)
    requires Clean(s, path, colons, start) && s.p < s.m && !s.dot
    ensures Clean(LeadStep(s, dotfiles, start), path, colons, start)
  {
  }

  /** An allowed byte the loop steps over is done with. */
  lemma KeptKeepsClean(s: Pass, path: bool, colons: bool, start: nat)
    requires Clean(s, path, colons, start) && s.p < s.m && Allowed(s.buf[s.p], path, colons)
    ensures Clean(s.(p := s.p + 1, sop := false), path, colons, start)
  {
  }

  /** `*p = '/'` and the collapse leave the bytes before the cursor alone. */
  lemma CollapsedShape(s: Pass, start: nat)
    requires Sound(s, start) && s.p < s.m
    ensures var r := Collapsed(s, start);
      r.buf[s.p] == '/' && r.buf[..s.p] == s.buf[..s.p]
  {
  }

  /** The trim moves the `/` at the cursor down to just before the new cursor. */
  lemma TrimmedShape(s: Pass, start: nat)
    requires Sound(s, start) && s.p < s.m && !s.dot && s.buf[s.p] == '/'
    ensures var r := Trimmed(s, start);
      0 < r.p <= s.p + 1 && r.buf[r.p - 1] == '/' && r.buf[..r.p - 1] == s.buf[..r.p - 1]
  {
  }

  /**
   * The allowed bytes before the cursor stay so when the buffer keeps
   * them, twice over, and a `/` follows them.
   */
  lemma CleanAfterSlash(s: Pass, s1: Pass, r: Pass, path: bool, colons: bool, start: nat)
    requires Clean(s, path, colons, start) && Sound(r, start) && !r.colons
    requires s.p < |s1.buf| && s1.buf[..s.p] == s.buf[..s.p]
    requires 0 < r.p <= s.p + 1 && r.buf[..r.p - 1] == s1.buf[..r.p - 1] && r.buf[r.p - 1] == '/' && path
    ensures Clean(r, path, colons, start)
  {
    forall k | start <= k < r.p - 1
      ensures Allowed(r.buf[k], path, colons)
    {
      assert r.buf[k] == r.buf[..r.p - 1][k] == s1.buf[k] == s1.buf[..s.p][k] == s.buf[k];
    }
  }

  /** A separator under ALLOW_PATH leaves a `/` after the bytes done with. */
  lemma SepStepKeepsClean(s: Pass, colons: bool, start: nat)
    requires Clean(s, true, colons, start) && s.p < s.m && IsSep(s.buf[s.p]) && !s.dot
    ensures Clean(SepStep(s, start), true, colons, start)
  {
    var s1 := Collapsed(s, start);
    CollapsedShape(s, start);
    TrimmedShape(s1, start);
    CleanAfterSlash(s, s1, Trimmed(s1, start), true, colons, start);
  }

  /** A banned `:` becomes `_` or goes, with the bytes before it untouched. */
  lemma ColonStepKeepsClean(s: Pass, path: bool, colons: bool, start: nat)
    requires Clean(s, path, colons, start) && s.p < s.m && s.buf[s.p] == ':' && !s.dot
    ensures Clean(ColonStep(s, start), path, colons, start)
  {
    var r := ColonStep(s, start);
    if !(s.sop || s.buf[s.p + 1] != '/') {
      assert forall k :: 0 <= k < s.p ==> r.buf[k] == s.buf[k];
    }
  }

  /** The `.` branch replaces bytes by `_` or keeps a `.`. */
  lemma DotStepKeepsClean(s: Pass, dotfiles: bool, path: bool, colons: bool, start: nat)
    requires Clean(s, path, colons, start) && s.p < s.m && s.buf[s.p] == '.'
    ensures Clean(DotStep(s, dotfiles, start), path, colons, start)
  {
  }

  /** The whole loop leaves every byte after `start` allowed. */
  lemma {:induction false} RunKeepsClean(s: Pass, path: bool, dotfiles: bool, colons: bool, start: nat)
    requires Clean(s, path, colons, start)
    ensures Clean(Run(s, path, dotfiles, start), path, colons, start)
    decreases s.m - s.p
  {
    if s.p < s.m {
      StepKeepsClean(s, path, dotfiles, colons, start);
      RunKeepsClean(Step(s, path, dotfiles, start), path, dotfiles, colons, start);
    }
  }
  /**
   * After the loop and the clip every byte is allowed, save the literal
   * prefix `\\?\` the loop skipped, which stays in place.
   */
  lemma CleanedAllowed(t: string, flags: Flags)
    requires NoNul(t)
    ensures Cleaned(t, flags).flags.path == EffectiveFlags(flags).path
    ensures var c := Cleaned(t, flags); var f := EffectiveFlags(flags);
      forall k :: 0 <= k < |c.text| ==>
        Allowed(c.text[k], f.path, f.colons) || (k < 4 && KeepsLiteralPrefix(t, flags) && c.text[k] == t[k])
    ensures KeepsLiteralPrefix(t, flags) ==> LiteralPrefix(Cleaned(t, flags).text)
  {
    var f := EffectiveFlags(flags);
    var s0 := Loaded(t, flags);
    RunKeepsClean(s0, f.path, f.dotfiles, f.colons, s0.p);
    var e := Run(s0, f.path, f.dotfiles, s0.p);
    var text := Finished(e, |t|, f.path);
    assert Cleaned(t, flags) == Cleaning(text, f.(colons := e.colons));
    TextAllowed(e, text, t, f.path, f.colons, s0.p, KeepsLiteralPrefix(t, flags));
  }

  /** What the loop leaves done with is the text's, a prefix of the buffer. */
  lemma TextAllowed(e: Pass, text: string, t: string, path: bool, colons: bool, start: nat, keeps: bool)
    requires Clean(e, path, colons, start) && e.p == e.m && (start == 4 <==> keeps) && (keeps ==> LiteralPrefix(t))
    requires |text| <= e.m && forall k :: 0 <= k < |text| ==> text[k] == e.buf[k]
    ensures forall k :: 0 <= k < |text| ==> Allowed(text[k], path, colons) || (k < 4 && keeps && text[k] == t[k])
    ensures keeps && |text| == e.m ==> LiteralPrefix(text)
  {
  }

  /**
   * The answer of `curl_sanitize_file_name`: a copy exactly on success, and
   * every failure INVALID_PATH; a name over the limit without
   * ALLOW_TRUNCATE fails.
   */
  lemma SanitizedNameCodes(name: string, flags: Flags, longPaths: bool)
    requires NoNul(name)
    ensures var reply := SanitizedName(Some(name), flags, longPaths);
      (reply.code == ErrOk <==> reply.sanitized.Some?) && (reply.code == ErrOk || reply.code == ErrInvalidPath)
    ensures |name| > MaxSanitizedLen(name, flags, longPaths) && !flags.truncate ==>
      SanitizedName(Some(name), flags, longPaths) == Reply(ErrInvalidPath, None)
  {
    var max := MaxSanitizedLen(name, flags, longPaths);
    if !(|name| > max && (!flags.truncate || Dryrun(Some(name), max) != ErrOk)) {
      var c := Cleaned(RenameInput(name, flags, longPaths), flags);
      if !c.flags.reserved {
        RenamedRemovesDevices(c.text, c.flags, longPaths);
      }
    }
  }

  /**
   * A sanitized name fits the limit and holds only allowed bytes: no
   * control byte, nothing of the banned set, no `\`, no `/` without
   * ALLOW_PATH, no `:` unless ALLOW_COLONS was given without
   * ALLOW_ONLY_RELATIVE_PATH; only a literal prefix `\\?\` kept under
   * ALLOW_PATH is exempt.
   */
  lemma SanitizedNameIsClean(name: string, flags: Flags, longPaths: bool)
    requires NoNul(name)
    ensures var reply := SanitizedName(Some(name), flags, longPaths); var f := EffectiveFlags(flags);
      reply.sanitized.Some? ==>
        var r := reply.sanitized.value;
        NoNul(r) && |r| <= MaxSanitizedLen(name, flags, longPaths) &&
        forall k :: 0 <= k < |r| ==>
          Allowed(r[k], f.path, f.colons) || (k < 4 && KeepsLiteralPrefix(name, flags) && r[k] == name[k])
  {
    var max := MaxSanitizedLen(name, flags, longPaths);
    if !(|name| > max && (!flags.truncate || Dryrun(Some(name), max) != ErrOk)) {
      var t := RenameInput(name, flags, longPaths);
      CleanedAllowed(t, flags);
      KeepsLiteralPrefixOfCut(name, t, flags);
      SettledIsClean(Cleaned(t, flags), max, longPaths, name, flags);
      assert SanitizedName(Some(name), flags, longPaths) == Settled(Cleaned(t, flags), max, longPaths);
    } else {
      assert SanitizedName(Some(name), flags, longPaths).sanitized == None;
    }
  }

  /** The renaming and the length check keep a clean text clean. */
  lemma SettledIsClean(c: Cleaning, max: nat, longPaths: bool, name: string, flags: Flags)
    requires NoNul(c.text) && |c.text| <= max && c.flags.path == EffectiveFlags(flags).path
    requires var f := EffectiveFlags(flags);
      forall k :: 0 <= k < |c.text| ==> Allowed(c.text[k], f.path, f.colons) || (k < 4 && KeepsLiteralPrefix(name, flags) && c.text[k] == name[k])
    requires KeepsLiteralPrefix(name, flags) ==> LiteralPrefix(c.text)
    ensures var reply := Settled(c, max, longPaths); var f := EffectiveFlags(flags);
      reply.sanitized.Some? ==>
        var r := reply.sanitized.value;
        NoNul(r) && |r| <= max &&
        forall k :: 0 <= k < |r| ==>
          Allowed(r[k], f.path, f.colons) || (k < 4 && KeepsLiteralPrefix(name, flags) && r[k] == name[k])
  {
    if !c.flags.reserved {
      var rn := Renamed(Some(c.text), c.flags, longPaths);
      RenamedRemovesDevices(c.text, c.flags, longPaths);
      RenamedChars(c.text, c.flags, longPaths);
      if c.flags.path && StartsWithDoubleBackslash(c.text) {
        RenamedLeavesUncPaths(c.text, c.flags, longPaths);
      }
      if rn.sanitized.Some? {
        RenamedCleanText(c.text, rn.sanitized.value, name, flags, c.flags.path);
      }
    }
  }

  /**
   * Without ALLOW_RESERVED neither the start of a sanitized name nor its
   * base name is a DOS device name, a literal prefix `\\?\` kept under
   * ALLOW_PATH aside.
   */
  lemma SanitizedNameHasNoDevices(name: string, flags: Flags, longPaths: bool)
    requires NoNul(name) && !flags.reserved && !KeepsLiteralPrefix(name, flags)
    ensures var reply := SanitizedName(Some(name), flags, longPaths);
      reply.sanitized.Some? ==> !DeviceAt(reply.sanitized.value, 0) && !DeviceAt(reply.sanitized.value, BaseOffset(reply.sanitized.value))
  {
    var reply := SanitizedName(Some(name), flags, longPaths);
    if reply.sanitized.Some? {
      var t := RenameInput(name, flags, longPaths);
      var c := Cleaned(t, flags);
      CleanedAllowed(t, flags);
      KeepsLiteralPrefixOfCut(name, t, flags);
      RenamedRemovesDevices(c.text, c.flags, longPaths);
    }
  }

  /** The cut name starts with the literal prefix exactly when the name is kept with it. */
  lemma KeepsLiteralPrefixOfCut(name: string, t: string, flags: Flags)
    requires |t| <= |name| && t == name[..|t|] && (|t| >= 4 || t == name)
    ensures KeepsLiteralPrefix(t, flags) <==> KeepsLiteralPrefix(name, flags)
  {
  }

  /** The renaming keeps a clean text clean. */
  lemma RenamedCleanText(text: string, r: string, name: string, flags: Flags, path: bool)
    requires path == EffectiveFlags(flags).path
    requires var f := EffectiveFlags(flags);
      forall k :: 0 <= k < |text| ==> Allowed(text[k], f.path, f.colons) || (k < 4 && KeepsLiteralPrefix(name, flags) && text[k] == name[k])
    requires KeepsLiteralPrefix(name, flags) ==> LiteralPrefix(text)
    requires path && StartsWithDoubleBackslash(text) ==> |r| <= |text| && r == text[..|r|]
    requires forall k :: 0 <= k < |r| ==> r[k] == '_' || r[k] in text
    ensures var f := EffectiveFlags(flags);
      forall k :: 0 <= k < |r| ==> Allowed(r[k], f.path, f.colons) || (k < 4 && KeepsLiteralPrefix(name, flags) && r[k] == name[k])
    ensures path && StartsWithDoubleBackslash(text) ==> KeepsLiteralPrefix(name, flags)
  {
    var f := EffectiveFlags(flags);
    if path && StartsWithDoubleBackslash(text) {
      assert !Allowed(text[0], f.path, f.colons);
      forall k | 0 <= k < |r|
        ensures r[k] == text[k]
      {
        assert r[k] == text[..|r|][k];
      }
    } else {
      forall k | 0 <= k < |r|
        ensures Allowed(r[k], f.path, f.colons)
      {
        if r[k] != '_' {
          var j :| 0 <= j < |text| && text[j] == r[k];
        }
      }
    }
  }

  // ---------------------------------------------------------------------
  // What ALLOW_ONLY_RELATIVE_PATH does to the name.

  /** `Moved` byte by byte. */
  lemma MovedAt(buf: seq<char>, m: nat, dst: nat, src: nat, i: nat)
    requires Terminated(buf, m) && dst <= src <= m && i < |buf|
    ensures Moved(buf, m, dst, src)[i] ==
      if i < dst then buf[i] else if i <= dst + (m - src) then buf[src + (i - dst)] else buf[i]
  {
  }

  /**
   * Under ALLOW_ONLY_RELATIVE_PATH the loop starts at offset 0 of what
   * follows the root of the name: the literal prefix `\\?\` when the name
   * starts with it, then every `/` and `\` after that.
   */
  lemma LoadedStripsRoot(t: string, flags: Flags)
    requires NoNul(t) && flags.onlyRelative
    ensures var k := RootEnd(t + [NUL], |t|); var s := Loaded(t, flags);
      s.p == 0 && s.m == |t| - k && s.buf[..s.m] == t[k..]
    ensures var k := RootEnd(t + [NUL], |t|);
      (k == |t| || !IsSep(t[k])) &&
      (if LiteralPrefix(t) then 4 else 0) <= k &&
      forall j :: (if LiteralPrefix(t) then 4 else 0) <= j < k ==> IsSep(t[j])
  {
    RootEndOfName(t);
    var buf0 := t + [NUL];
    var k := RootEnd(buf0, |t|);
    var s := Loaded(t, flags);
    LoadedIsMoved(t, flags);
    forall i | 0 <= i < s.m
      ensures s.buf[i] == t[k + i]
    {
      MovedAt(buf0, |t|, 0, k, i);
    }
    assert s.buf[..s.m] == t[k..];
  }

  /** Where the root of a name ends, read on the name itself. */
  lemma RootEndOfName(t: string)
    requires NoNul(t)
    ensures Terminated(t + [NUL], |t|)
    ensures var k := RootEnd(t + [NUL], |t|);
      (k == |t| || !IsSep(t[k])) &&
      (if LiteralPrefix(t) then 4 else 0) <= k &&
      forall j :: (if LiteralPrefix(t) then 4 else 0) <= j < k ==> IsSep(t[j])
  {
    var buf0 := t + [NUL];
    assert Terminated(buf0, |t|);
    assert LiteralPrefix(buf0) && |t| >= 4 <==> LiteralPrefix(t);
    assert forall j :: 0 <= j < |t| ==> buf0[j] == t[j];
  }

  lemma LoadedIsMoved(t: string, flags: Flags)
    requires NoNul(t) && flags.onlyRelative && Terminated(t + [NUL], |t|)
    ensures var k := RootEnd(t + [NUL], |t|); var s := Loaded(t, flags);
      s.p == 0 && s.m == |t| - k && s.buf == Moved(t + [NUL], |t|, 0, k)
  {
  }

  /**
   * The first byte of the buffer: never a separator, and no longer a space
   * or a dot once the loop has passed it.
   */
  predicate HeadKept(s: Pass) {
    |s.buf| > 0 && !IsSep(s.buf[0]) && (s.p == 0 ==> s.sop) && (s.p > 0 ==> !SpaceOrDot(s.buf[0]))
  }

  /** Without ALLOW_DOTFILES each turn of the relative-only loop keeps the first byte so. */
  lemma StepKeepsHead(s: Pass)
    requires Sound(s, 0) && s.p < s.m && HeadKept(s)
    ensures HeadKept(Step(s, true, false, 0))
  {
    var c := s.buf[s.p];
    var s' := s.(dot := false);
    if c == '.' {
      assert HeadKept(DotStep(s, false, 0));
    } else if IsSep(c) {
      SepStepKeepsHead(s');
    } else if !s.colons && c == ':' && !IsControl(c) {
      ColonStepKeepsHead(s');
    } else if IsControl(c) || IsBanned(c) {
      assert HeadKept(Replaced(s', 0));
    } else if s.sop && Leading(c, false) {
      assert HeadKept(LeadStep(s', false, 0));
    }
  }

  lemma SepStepKeepsHead(s: Pass)
    requires Sound(s, 0) && s.p < s.m && HeadKept(s) && IsSep(s.buf[s.p]) && !s.dot
    ensures HeadKept(SepStep(s, 0))
  {
    var b1 := s.buf[s.p := '/'];
    MovedAt(b1, s.m, s.p + 1, SepRun(b1, s.m, s.p + 1), 0);
    var s1 := Collapsed(s, 0);
    assert s1.buf[0] == s.buf[0];
    var q := TrailStart(s1.buf, s1.p);
    assert q > 0;
    MovedAt(s1.buf, s1.m, q, s1.p, 0);
  }

  lemma ColonStepKeepsHead(s: Pass)
    requires Sound(s, 0) && s.p < s.m && HeadKept(s) && s.buf[s.p] == ':' && !s.dot
    ensures HeadKept(ColonStep(s, 0))
  {
    if !s.sop && s.buf[s.p + 1] == '/' {
      MovedAt(s.buf, s.m, s.p, SepRun(s.buf, s.m, s.p + 2) - 1, 0);
    }
  }

  lemma {:induction false} RunKeepsHead(s: Pass)
    requires Sound(s, 0) && HeadKept(s)
    ensures HeadKept(Run(s, true, false, 0))
    decreases s.m - s.p
  {
    if s.p < s.m {
      StepKeepsHead(s);
      RunKeepsHead(Step(s, true, false, 0));
    }
  }

  /**
   * Under ALLOW_ONLY_RELATIVE_PATH without ALLOW_DOTFILES the cleaned text
   * starts with neither a separator nor a space or a dot.
   */
  lemma CleanedIsRelative(t: string, flags: Flags)
    requires NoNul(t) && flags.onlyRelative && !flags.dotfiles
    ensures var text := Cleaned(t, flags).text; |text| > 0 ==> !IsSep(text[0]) && !SpaceOrDot(text[0])
  {
    var s0 := Loaded(t, flags);
    assert Terminated(t + [NUL], |t|);
    MovedAt(t + [NUL], |t|, 0, RootEnd(t + [NUL], |t|), 0);
    RunKeepsHead(s0);
  }

  /**
   * Under ALLOW_ONLY_RELATIVE_PATH without ALLOW_DOTFILES the sanitized
   * name never starts with `/` or `\`.
   */
  lemma SanitizedNameIsRelative(name: string, flags: Flags, longPaths: bool)
    requires NoNul(name) && flags.onlyRelative && !flags.dotfiles
    ensures var r := SanitizedName(Some(name), flags, longPaths);
      r.sanitized.Some? && |r.sanitized.value| > 0 ==> !IsSep(r.sanitized.value[0])
  {
    var t := RenameInput(name, flags, longPaths);
    CleanedIsRelative(t, flags);
    var c := Cleaned(t, flags);
    RenamedKeepsHead(c.text, c.flags, longPaths);
  }

  /** `. /x` loaded under ALLOW_ONLY_RELATIVE_PATH: no root to strip. */
  lemma LoadedDotSpace(t: string, f: Flags)
    requires t == ". /x" && f == Flags(false, false, true, false, true, false)
    ensures Loaded(t, f) == Pass(t + [NUL], 4, 0, true, false, false)
  {
    var b0 := t + [NUL];
    assert Terminated(b0, 4) && !LiteralPrefix(b0) && !IsSep(b0[0]);
    assert RootEnd(b0, 4) == 0;
    assert Moved(b0, 4, 0, 0) == b0;
  }

  /** Under ALLOW_DOTFILES the `.` and the space of `. /x` are stepped over. */
  lemma RunDotSpaceHead(b0: seq<char>)
    requires b0 == ". /x" + [NUL]
    ensures Run(Pass(b0, 4, 0, true, false, false), true, true, 0) == Run(Pass(b0, 4, 2, false, false, false), true, true, 0)
  {
    var s0 := Pass(b0, 4, 0, true, false, false);
    assert Step(s0, true, true, 0) == s0.(p := 1, dot := true, sop := false);
    assert Step(s0.(p := 1, dot := true, sop := false), true, true, 0) == s0.(p := 2, sop := false);
  }

  /** The `/` of `. /x`: the trim goes back over `. ` to offset 0. */
  lemma SepStepDotSpace(b0: seq<char>, b3: seq<char>)
    requires b0 == ". /x" + [NUL] && b3 == "/x" + [NUL] + "x" + [NUL]
    ensures SepStep(Pass(b0, 4, 2, false, false, false), 0) == Pass(b3, 2, 1, true, false, false)
  {
    assert Terminated(b0, 4);
    assert b0[2 := '/'] == b0;
    assert SepRun(b0, 4, 3) == 3 && Moved(b0, 4, 3, 3) == b0;
    assert TrailStart(b0, 2) == 0;
    assert Moved(b0, 4, 0, 2) == b3;
  }

  /**
   * With ALLOW_DOTFILES as well, `. /x` comes out as `/x`: the `.` and the
   * space are kept, and the trim before the `/` goes back over both to the
   * start of the buffer.
   */
  lemma CleanedDotSpaceIsAbsolute()
    ensures Cleaned(". /x", FlagsOf(AllowOnlyRelativePath | AllowDotfiles)).text == "/x"
  {
    var t := ". /x";
    var f := FlagsOf(AllowOnlyRelativePath | AllowDotfiles);
    assert f == Flags(false, false, true, false, true, false);
    var b0 := t + [NUL];
    var b3 := "/x" + [NUL] + "x" + [NUL];
    LoadedDotSpace(t, f);
    RunDotSpaceHead(b0);
    RunDotSpaceTail(b0, b3);
    FinishedDotSpace(b3);
  }

  /** The rest of the loop over `. /x`. */
  lemma RunDotSpaceTail(b0: seq<char>, b3: seq<char>)
    requires b0 == ". /x" + [NUL] && b3 == "/x" + [NUL] + "x" + [NUL]
    ensures Run(Pass(b0, 4, 2, false, false, false), true, true, 0) == Pass(b3, 2, 2, false, false, false)
  {
    SepStepDotSpace(b0, b3);
    var s3 := Pass(b3, 2, 1, true, false, false);
    assert Step(Pass(b0, 4, 2, false, false, false), true, true, 0) == s3;
    assert Step(s3, true, true, 0) == s3.(p := 2, sop := false);
    assert Run(s3, true, true, 0) == Run(s3.(p := 2, sop := false), true, true, 0);
  }

  /** The buffer left by the loop over `. /x` reads `/x`. */
  lemma FinishedDotSpace(b3: seq<char>)
    requires b3 == "/x" + [NUL] + "x" + [NUL]
    ensures Finished(Pass(b3, 2, 2, false, false, false), 4, true) == "/x"
  {
    CStrOfTerminated(b3, 2);
    assert b3[..2] == "/x";
  }

  // ---------------------------------------------------------------------
  // Examples.

  /** A byte no rule of the loop applies to, outside the start of a segment. */
  predicate Plain(c: char, colons: bool) {
    c != '.' && !IsSep(c) && !IsControl(c) && !(c == ':' && !colons) && !IsBanned(c)
  }

  /** A byte the loop replaces by `_` wherever it stands. */
  predicate Replaceable(c: char, path: bool, colons: bool) {
    c != '.' && ((IsSep(c) && !path) || IsControl(c) || (!(c == ':' && !colons) && IsBanned(c)))
  }

  /** A byte no rule applies to is stepped over. */
  lemma RunKeeps(s: Pass, path: bool, dotfiles: bool, start: nat)
    requires Sound(s, start) && s.p < s.m && Plain(s.buf[s.p], s.colons) && !(s.sop && Leading(s.buf[s.p], dotfiles))
    ensures Run(s, path, dotfiles, start) == Run(s.(p := s.p + 1, sop := false, dot := false), path, dotfiles, start)
  {
    StepKeeps(s, path, dotfiles, start);
  }

  lemma StepKeeps(s: Pass, path: bool, dotfiles: bool, start: nat)
    requires Sound(s, start) && s.p < s.m && Plain(s.buf[s.p], s.colons) && !(s.sop && Leading(s.buf[s.p], dotfiles))
    ensures Step(s, path, dotfiles, start) == s.(p := s.p + 1, sop := false, dot := false)
  {
  }

  /** A control byte, a banned byte, or a separator without ALLOW_PATH becomes `_`. */
  lemma RunReplaces(s: Pass, path: bool, dotfiles: bool, start: nat)
    requires Sound(s, start) && s.p < s.m && Replaceable(s.buf[s.p], path, s.colons)
    ensures Run(s, path, dotfiles, start) == Run(Replaced(s, start), path, dotfiles, start)
  {
    StepReplaces(s, path, dotfiles, start);
  }

  lemma StepReplaces(s: Pass, path: bool, dotfiles: bool, start: nat)
    requires Sound(s, start) && s.p < s.m && Replaceable(s.buf[s.p], path, s.colons)
    ensures Step(s, path, dotfiles, start) == Replaced(s, start)
  {
    var c := s.buf[s.p];
    var s' := s.(dot := false);
    assert Replaced(s', start) == Replaced(s, start);
    if IsSep(c) {
      assert Step(s, path, dotfiles, start) == Replaced(s', start);
    } else if IsControl(c) {
      assert Step(s, path, dotfiles, start) == Replaced(s', start);
    } else {
      assert !(!s.colons && c == ':') && IsBanned(c);
      assert Step(s, path, dotfiles, start) == Replaced(s', start);
    }
  }

  /** A run of plain bytes passes through the loop unchanged. */
  lemma {:induction false} RunOverPlain(s: Pass, path: bool, dotfiles: bool, start: nat, j: nat)
    requires Sound(s, start) && s.p <= j <= s.m && !s.dot
    requires forall k :: s.p <= k < j ==> Plain(s.buf[k], s.colons)
    requires s.sop && s.p < j ==> !Leading(s.buf[s.p], dotfiles)
    ensures Run(s, path, dotfiles, start) == Run(s.(p := j, sop := s.sop && s.p == j), path, dotfiles, start)
    decreases j - s.p
  {
    if s.p < j {
      RunKeeps(s, path, dotfiles, start);
      RunOverPlain(s.(p := s.p + 1, sop := false), path, dotfiles, start, j);
    }
  }

  /** The loop over `f?*foo`, up to the `*`. */
  lemma RunBannedHead()
    ensures Run(Pass("f?*foo" + [NUL], 6, 0, true, false, false), false, false, 0) ==
      Run(Pass("f_*foo" + [NUL], 6, 2, false, false, false), false, false, 0)
  {
    var b0 := "f?*foo" + [NUL];
    RunOverPlain(Pass(b0, 6, 0, true, false, false), false, false, 0, 1);
    RunReplaces(Pass(b0, 6, 1, false, false, false), false, false, 0);
    assert b0[1 := '_'] == "f_*foo" + [NUL];
  }

  /** The rest of the loop over `f?*foo`. */
  lemma RunBannedTail(b1: seq<char>, b2: seq<char>)
    requires b1 == "f_*foo" + [NUL] && b2 == "f__foo" + [NUL]
    ensures Run(Pass(b1, 6, 2, false, false, false), false, false, 0) == Pass(b2, 6, 6, false, false, false)
  {
    RunReplaces(Pass(b1, 6, 2, false, false, false), false, false, 0);
    assert b1[2 := '_'] == b2;
    RunOverPlain(Pass(b2, 6, 3, false, false, false), false, false, 0, 6);
  }

  /** `f?*foo => f__foo`, the example of the comment on `curl_sanitize_file_name`. */
  lemma CleanedBannedChars()
    ensures Cleaned("f?*foo", FlagsOf(0)) == Cleaning("f__foo", FlagsOf(0))
  {
    var f := FlagsOf(0);
    assert f == Flags(false, false, false, false, false, false);
    var b0 := "f?*foo" + [NUL];
    assert Loaded("f?*foo", f) == Pass(b0, 6, 0, true, false, false);
    RunBannedHead();
    RunBannedTail("f_*foo" + [NUL], "f__foo" + [NUL]);
    var b2 := "f__foo" + [NUL];
    assert TrailStart(b2, 6) == 6;
    CStrOfTerminated(b2, 6);
  }

  /** A banned `:` takes the colon rule. */
  lemma RunColon(s: Pass, path: bool, dotfiles: bool, start: nat)
    requires Sound(s, start) && s.p < s.m && s.buf[s.p] == ':' && !s.colons
    ensures Run(s, path, dotfiles, start) == Run(ColonStep(s.(dot := false), start), path, dotfiles, start)
  {
    assert Step(s, path, dotfiles, start) == ColonStep(s.(dot := false), start);
  }

  /** A separator under ALLOW_PATH takes the separator rule. */
  lemma RunSeparator(s: Pass, path: bool, dotfiles: bool, start: nat)
    requires Sound(s, start) && s.p < s.m && IsSep(s.buf[s.p]) && path
    ensures Run(s, path, dotfiles, start) == Run(SepStep(s.(dot := false), start), path, dotfiles, start)
  {
    assert Step(s, path, dotfiles, start) == SepStep(s.(dot := false), start);
  }

  /** The colon rule on `http://x`: the `:` goes with one of the two slashes. */
  lemma ColonStepUrl()
    ensures ColonStep(Pass("http://x" + [NUL], 8, 4, false, false, false), 0) ==
      Pass("http/x\0x\0", 6, 4, false, false, false)
  {
    var b := "http://x" + [NUL];
    assert SepRun(b, 8, 6) == 7;
    assert Moved(b, 8, 4, 6) == "http/x\0x\0";
  }

  /** The separator rule on what is left of `http://x`. */
  lemma SepStepUrl()
    ensures var b := "http/x\0x\0";
      SepStep(Pass(b, 6, 4, false, false, false), 0) == Pass(b, 6, 5, true, false, false)
  {
    var b := "http/x\0x\0";
    assert b[4 := '/'] == b;
    assert SepRun(b, 6, 5) == 5;
    assert Moved(b, 6, 5, 5) == b;
    assert TrailStart(b, 4) == 4;
    assert Moved(b, 6, 4, 4) == b;
  }

  /** The loop over `http://x` under ALLOW_PATH, up to the `:`. */
  lemma RunUrlHead()
    ensures Run(Pass("http://x" + [NUL], 8, 0, true, false, false), true, false, 0) ==
      Run(Pass("http/x\0x\0", 6, 4, false, false, false), true, false, 0)
  {
    var b0 := "http://x" + [NUL];
    RunOverPlain(Pass(b0, 8, 0, true, false, false), true, false, 0, 4);
    RunColon(Pass(b0, 8, 4, false, false, false), true, false, 0);
    ColonStepUrl();
  }

  /** The rest of the loop over `http://x`. */
  lemma RunUrlTail()
    ensures var b1 := "http/x\0x\0";
      Run(Pass(b1, 6, 4, false, false, false), true, false, 0) == Pass(b1, 6, 6, false, false, false)
  {
    var b1 := "http/x\0x\0";
    RunSeparator(Pass(b1, 6, 4, false, false, false), true, false, 0);
    SepStepUrl();
    RunKeeps(Pass(b1, 6, 5, true, false, false), true, false, 0);
  }

  /** `http://x` loaded under ALLOW_PATH: no prefix skipped, the loop starting at 0. */
  lemma LoadedUrl(t: string)
    requires t == "http://x"
    ensures Loaded(t, FlagsOf(AllowPath)) == Pass(t + [NUL], 8, 0, true, false, false)
  {
    var f := FlagsOf(AllowPath);
    assert f == Flags(false, true, false, false, false, false);
    assert !LiteralPrefix(t + [NUL]);
  }

  /** The buffer left by the loop over `http://x` reads `http/x`. */
  lemma FinishedUrl(b1: seq<char>)
    requires b1 == "http/x\0x\0"
    ensures Finished(Pass(b1, 6, 6, false, false, false), 8, true) == "http/x"
  {
    CStrOfTerminated(b1, 6);
    assert b1[..6] == "http/x";
  }

  /** `http://x => http/x` under ALLOW_PATH: the `:` goes with the extra slash. */
  lemma CleanedUrl()
    ensures Cleaned("http://x", FlagsOf(AllowPath)) == Cleaning("http/x", FlagsOf(AllowPath))
  {
    var f := FlagsOf(AllowPath);
    assert f == Flags(false, true, false, false, false, false);
    LoadedUrl("http://x");
    RunUrlHead();
    RunUrlTail();
    FinishedUrl("http/x\0x\0");
  }

  /** `f__foo` holds no device name. */
  lemma RenamedPlainName()
    ensures Renamed(Some("f__foo"), FlagsOf(0), false) == Reply(ErrOk, Some("f__foo"))
  {
    var f := FlagsOf(0);
    assert f == Flags(false, false, false, false, false, false);
    assert "f__foo"[0..][..3] == "f__" && LowerAll("f__") == "f__";
    assert "f__foo"[0..][..6] == "f__foo" && LowerAll("f__foo") == "f__foo";
    assert DeviceLength("f__foo", 0) == 0;
    BaseOffsetIs("f__foo", 0);
    RenamedKeepsOrdinaryNames("f__foo", f, false);
  }

  /** `f?*foo` comes back from `curl_sanitize_file_name` as `f__foo`. */
  lemma SanitizedBannedChars()
    ensures SanitizedName(Some("f?*foo"), FlagsOf(0), false) == Reply(ErrOk, Some("f__foo"))
  {
    var f := FlagsOf(0);
    assert f == Flags(false, false, false, false, false, false);
    assert MaxSanitizedLen("f?*foo", f, false) == 255;
    assert RenameInput("f?*foo", f, false) == "f?*foo";
    CleanedBannedChars();
    RenamedPlainName();
  }

}
