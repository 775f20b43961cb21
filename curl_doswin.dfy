/**
 * The support functions of curl's file name sanitizer in tool_doswin.c:
 * the flag bits and result codes of pathutils.h, `get_max_sanitized_len`,
 * `truncate_dryrun` and `rename_if_reserved_dos_device_name`, for the
 * Windows build (`PATH_MAX` is `MAX_PATH`, 260).
 *
 * Two things are not part of this model and become parameters or
 * assumptions: the Windows version query `curlx_verify_windows_version`
 * (the flag `longPaths`), and `tool_basename`, taken to return the part
 * after the last `/` or `\`.
 */
module CurlDosWin {
  import opened CStrings

  /** `CurlSanitizeCode`. */
  datatype Code = ErrOk | ErrInvalidPath | ErrBadArgument | ErrOutOfMemory

  /** The numbers the enumeration gives the codes. */
  function CodeValue(c: Code): nat {
    match c
    case ErrOk => 0
    case ErrInvalidPath => 1
    case ErrBadArgument => 2
    case ErrOutOfMemory => 3
  }

  /** The result code and, on success only, the sanitized copy (`*sanitized`). */
  datatype Reply = Reply(code: Code, sanitized: Option<string>)

  /** The `CURL_SANITIZE_ALLOW_*` bits of a `flags` word, one field per bit. */
  datatype Flags = Flags(colons: bool, path: bool, onlyRelative: bool, reserved: bool, dotfiles: bool, truncate: bool)

  const AllowColons: bv32 := 1 << 0
  const AllowPath: bv32 := 1 << 1
  const AllowOnlyRelativePath: bv32 := 1 << 2
  const AllowReserved: bv32 := 1 << 3
  const AllowDotfiles: bv32 := 1 << 4
  const AllowTruncate: bv32 := 1 << 5

  function FlagsOf(bits: bv32): Flags {
    Flags(bits & AllowColons != 0, bits & AllowPath != 0, bits & AllowOnlyRelativePath != 0,
          bits & AllowReserved != 0, bits & AllowDotfiles != 0, bits & AllowTruncate != 0)
  }

  /** `MAX_PATH`. */
  const PathMax: nat := 260

  /** The longest path Windows accepts with a `\\` prefix or long paths enabled. */
  const LongPathMax: nat := 32767 - 1

  predicate IsSep(c: char) {
    c == '/' || c == '\\'
  }

  /** `file_name[0] == '\\' && file_name[1] == '\\'`. */
  predicate StartsWithDoubleBackslash(s: string) {
    At(s, 0) == '\\' && At(s, 1) == '\\'
  }

  /**
   * `get_max_sanitized_len`: the long limit for a relative-only request
   * that may not truncate, a path limit under ALLOW_PATH, and 255 for a
   * bare file name.
   */
  function MaxSanitizedLen(name: string, flags: Flags, longPaths: bool): (n: nat)
    ensures flags.onlyRelative && !flags.truncate ==> n == LongPathMax
    ensures !(flags.onlyRelative && !flags.truncate) && flags.path ==>
      n == (if StartsWithDoubleBackslash(name) || longPaths then LongPathMax else PathMax - 1)
    ensures !(flags.onlyRelative && !flags.truncate) && !flags.path ==> n == 255
  {
    if flags.onlyRelative && !flags.truncate then LongPathMax
    else if flags.path then
      if StartsWithDoubleBackslash(name) || longPaths then LongPathMax else PathMax - 1
    else 255  // `(PATH_MAX-1 > 255) ? 255 : PATH_MAX-1` with `MAX_PATH`
  }

  // ---------------------------------------------------------------------
  // `truncate_dryrun`.

  predicate IsSepOrColon(c: char) {
    IsSep(c) || c == ':'
  }

  /** A `\`, `/` or `:` at or after `pos - 1` (the `strpbrk` test). */
  predicate TailHasSepOrColon(path: string, pos: nat)
    requires 0 < pos <= |path|
  {
    exists k :: pos - 1 <= k < |path| && IsSepOrColon(path[k])
  }

  /** A `:` before `pos - 1` with no separator between them: an alternate data stream. */
  predicate ColonInLastSegment(path: string, pos: nat)
    requires 0 < pos <= |path|
  {
    exists k :: 0 <= k < pos - 1 && path[k] == ':' && forall j :: k < j < pos - 1 ==> !IsSep(path[j])
  }

  /**
   * What `truncate_dryrun(path, pos)` answers: whether cutting `path` to
   * `pos` bytes keeps at least one byte of a file name that carries no
   * data stream suffix.
   */
  function Dryrun(path: Option<string>, pos: nat): Code {
    if path.None? || pos > |path.value| then ErrBadArgument
    else if |path.value| == 0 || pos == 0 then ErrInvalidPath
    else if TailHasSepOrColon(path.value, pos) || ColonInLastSegment(path.value, pos) then ErrInvalidPath
    else ErrOk
  }

  /** An accepted cut keeps a file name byte, and the kept file name has no colon. */
  lemma DryrunOkMeaning(path: string, pos: nat)
    requires Dryrun(Some(path), pos) == ErrOk
    ensures 0 < pos <= |path| && !IsSepOrColon(path[pos - 1])
    ensures forall k :: pos - 1 <= k < |path| ==> !IsSepOrColon(path[k])
    ensures forall k :: BaseOffset(path[..pos]) <= k < pos ==> path[k] != ':'
  {
    var s := path[..pos];
    var b := BaseOffset(s);
    forall k | b <= k < pos
      ensures path[k] != ':'
    {
      if k < pos - 1 {
        forall j | k < j < pos - 1
          ensures !IsSep(path[j])
        {
          assert s[j] == path[j];
        }
      }
    }
  }

  /** The examples of the comment above `truncate_dryrun` (`\` written as `\\`). */
  lemma DryrunDocTable()
    ensures Dryrun(Some("C:\\foo\\bar"), 9) == ErrOk
    ensures Dryrun(Some("C:\\foo"), 6) == ErrOk
    ensures Dryrun(Some("C:\\foo"), 5) == ErrOk
    ensures Dryrun(Some("C:foo"), 5) == ErrInvalidPath
    ensures Dryrun(Some("C:\\foo:ads"), 5) == ErrInvalidPath
    ensures Dryrun(Some("C:\\foo:ads"), 9) == ErrInvalidPath
    ensures Dryrun(Some("C:\\foo\\bar"), 5) == ErrInvalidPath
    ensures Dryrun(Some("C:\\foo\\"), 5) == ErrInvalidPath
    ensures Dryrun(Some("C:\\foo\\"), 7) == ErrInvalidPath
    ensures Dryrun(Some("C:\\foo"), 7) == ErrBadArgument
    ensures Dryrun(Some("C:\\foo\\"), 1) == ErrInvalidPath
  {
    DryrunGood("C:\\foo\\bar", 9, 6);
    DryrunGood("C:\\foo", 6, 2);
    DryrunGood("C:\\foo", 5, 2);
    assert ColonInLastSegment("C:foo", 5) by { assert "C:foo"[1] == ':'; }
    assert TailHasSepOrColon("C:\\foo:ads", 5) by { assert "C:\\foo:ads"[6] == ':'; }
    assert ColonInLastSegment("C:\\foo:ads", 9) by { assert "C:\\foo:ads"[6] == ':'; }
    assert TailHasSepOrColon("C:\\foo\\bar", 5) by { assert "C:\\foo\\bar"[6] == '\\'; }
    assert TailHasSepOrColon("C:\\foo\\", 5) by { assert "C:\\foo\\"[6] == '\\'; }
    assert TailHasSepOrColon("C:\\foo\\", 7) by { assert "C:\\foo\\"[6] == '\\'; }
    assert TailHasSepOrColon("C:\\foo\\", 1) by { assert "C:\\foo\\"[1] == ':'; }
  }

  /** A cut after a separator `q` that no colon follows, with no separator or colon from `pos - 1` on. */
  lemma DryrunGood(path: string, pos: nat, q: nat)
    requires q < pos - 1 && pos <= |path| && IsSep(path[q])
    requires forall k :: q < k < |path| ==> path[k] != ':'
    requires forall k :: pos - 1 <= k < |path| ==> !IsSep(path[k])
    ensures Dryrun(Some(path), pos) == ErrOk
  {
    forall k | 0 <= k < pos - 1 && path[k] == ':'
      ensures k < q
    {
    }
  }

  /** `truncate_dryrun(path, truncate_pos)`: the `strpbrk` scan, then the walk back through the last segment. */
  method TruncateDryrun(path: Option<string>, pos: nat) returns (code: Code)
    ensures code == Dryrun(path, pos)
  {
    if path.None? {
      return ErrBadArgument;
    }
    var s := path.value;
    var len := |s|;
    if pos > len {
      return ErrBadArgument;
    }
    if len == 0 || pos == 0 {
      return ErrInvalidPath;
    }
    var i := pos - 1;
    while i < len
      invariant pos - 1 <= i <= len
      invariant forall k :: pos - 1 <= k < i ==> !IsSepOrColon(s[k])
    {
      if s[i] == '\\' || s[i] == '/' || s[i] == ':' {
        return ErrInvalidPath;
      }
      i := i + 1;
    }
    if pos > 1 {
      var p := pos - 1;
      while true
        invariant 0 < p <= pos - 1
        invariant forall k :: p <= k < pos - 1 ==> s[k] != ':' && !IsSep(s[k])
        decreases p
      {
        p := p - 1;
        if s[p] == ':' {
          return ErrInvalidPath;
        }
        if p == 0 || IsSep(s[p]) {
          break;
        }
      }
      forall k | 0 <= k < pos - 1 && s[k] == ':'
        ensures k < p && IsSep(s[p])
      {
      }
    }
    return ErrOk;
  }

  // ---------------------------------------------------------------------
  // `rename_if_reserved_dos_device_name`.

  /** Where `tool_basename` puts the file name: after the last `/` or `\`. */
  function BaseOffset(s: string): (b: nat)
    ensures b <= |s|
    ensures b > 0 ==> IsSep(s[b - 1])
    ensures forall j :: b <= j < |s| ==> !IsSep(s[j])
  {
    if |s| == 0 then 0 else if IsSep(s[|s| - 1]) then |s| else BaseOffset(s[..|s| - 1])
  }

  /**
   * The `x` of the renaming loop: the length of a device name at `p`,
   * compared ignoring case (`curl_strnequal`), or 0.
   */
  function DeviceLength(s: string, p: nat): (x: nat)
    requires p <= |s|
    ensures x == 0 || x == 3 || x == 4 || x == 6
    ensures x > 0 ==> p + x <= |s|
  {
    var t := s[p..];
    if |t| < 3 then 0
    else
      var w := LowerAll(t[..3]);
      if w == "con" || w == "prn" || w == "aux" || w == "nul" then 3
      else if |t| >= 6 && LowerAll(t[..6]) == "clock$" then 6
      else if w == "com" || w == "lpt" then
        if '1' <= At(t, 3) <= '9' then 4 else 3
      else 0
  }

  /** The first offset from `i` on that does not hold a space. */
  function SkipSpaces(s: string, i: nat): (j: nat)
    requires i <= |s|
    ensures i <= j <= |s| && At(s, j) != ' '
    ensures forall k :: i <= k < j ==> s[k] == ' '
    decreases |s| - i
  {
    if At(s, i) != ' ' then i else SkipSpaces(s, i + 1)
  }

  /**
   * A device name at `p` that Windows would open as the device: the name,
   * trailing spaces, then the end, `.` or `:`.
   */
  predicate DeviceAt(s: string, p: nat)
    requires p <= |s|
  {
    var x := DeviceLength(s, p);
    x > 0 && var c := At(s, SkipSpaces(s, p + x)); c == NUL || c == '.' || c == ':'
  }

  /**
   * One turn of the renaming loop at `p`, `max` being the length limit:
   * `None` when the underscore does not fit and the name cannot be cut.
   */
  function RenameAt(t: string, p: nat, flags: Flags, max: nat): (r: Option<string>)
    requires NoNul(t) && p <= |t| <= max
    ensures r.Some? ==> NoNul(r.value) && |r.value| <= max
  {
    var x := DeviceLength(t, p);
    if x == 0 then Some(t)
    else
      var y := SkipSpaces(t, p + x);
      var c := At(t, y);
      if c == '.' then Some(t[y := '_'])
      else if c == ':' && !(flags.colons || flags.path) then Some(t[y := '_'])
      else if c != ':' && c != NUL then Some(t)
      else Prepended(t, p, flags, max)
  }

  /**
   * `_` inserted at `p`; at the limit the last byte makes room, when the
   * name may be cut there.
   */
  function Prepended(t: string, p: nat, flags: Flags, max: nat): (r: Option<string>)
    requires NoNul(t) && p < |t| <= max
    ensures r.Some? ==> |r.value| == (if |t| == max then |t| else |t| + 1)
    ensures r.Some? ==> NoNul(r.value) && |r.value| <= max && r.value[..p] == t[..p] && r.value[p] == '_'
    ensures r.Some? ==> forall j :: p < j < |r.value| ==> r.value[j] == t[j - 1]
  {
    if |t| == max then
      if !flags.truncate || Dryrun(Some(t), |t| - 1) != ErrOk then None
      else Some(t[..p] + "_" + t[p..|t| - 1])
    else Some(t[..p] + "_" + t[p..])
  }

  /**
   * A turn changes nothing exactly when no device name is at `p`; it keeps
   * what comes before `p` and brings in no separator after it.
   */
  lemma RenameAtShape(t: string, p: nat, flags: Flags, max: nat)
    requires NoNul(t) && p <= |t| <= max
    ensures var r := RenameAt(t, p, flags, max);
      (!DeviceAt(t, p) <==> r == Some(t)) &&
      (r.Some? ==> p <= |r.value| && r.value[..p] == t[..p]) &&
      (r.Some? && (forall j :: p <= j < |t| ==> !IsSep(t[j])) ==> forall j :: p <= j < |r.value| ==> !IsSep(r.value[j]))
  {
    if RenameAt(t, p, flags, max) == Some(t) {
      RenameAtRemovesDevice(t, p, flags, max);
    }
  }

  /** After its turn, no device name is left at `p`. */
  lemma RenameAtRemovesDevice(t: string, p: nat, flags: Flags, max: nat)
    requires NoNul(t) && p <= |t| <= max
    requires RenameAt(t, p, flags, max).Some?
    ensures var r := RenameAt(t, p, flags, max).value; p <= |r| && !DeviceAt(r, p)
  {
    var r := RenameAt(t, p, flags, max).value;
    var x := DeviceLength(t, p);
    if x > 0 {
      var y := SkipSpaces(t, p + x);
      var c := At(t, y);
      if c == '.' || (c == ':' && !(flags.colons || flags.path)) {
        SuffixTurnRemovesDevice(t, p, x, y);
        assert r == t[y := '_'];
      } else if c == NUL || c == ':' {
        PrefixTurnRemovesDevice(t, r, p, max);
      }
    }
  }

  /** Turning the `.` or `:` after a device name into `_` leaves a name that is not a device. */
  lemma SuffixTurnRemovesDevice(t: string, p: nat, x: nat, y: nat)
    requires p <= |t| && x == DeviceLength(t, p) && x > 0
    requires y == SkipSpaces(t, p + x) && y < |t| && (t[y] == '.' || t[y] == ':')
    ensures !DeviceAt(t[y := '_'], p)
  {
    var r := t[y := '_'];
    assert r[p..p + x] == t[p..p + x];
    DeviceLengthStable(r, t, p, x);
    SkipSpacesSame(r, t, p + x, y);
  }

  /** A name that starts with the inserted `_` at `p` is not a device. */
  lemma PrefixTurnRemovesDevice(t: string, r: string, p: nat, max: nat)
    requires p < |t| <= max
    requires r == t[..p] + "_" + t[p..] || (|t| == max && r == t[..p] + "_" + t[p..|t| - 1])
    ensures p <= |r| && !DeviceAt(r, p)
  {
    assert r[p] == '_';
    NoDeviceAtUnderscore(r, p);
  }

  /** No device name starts with `_`. */
  lemma NoDeviceAtUnderscore(s: string, p: nat)
    requires p < |s| && s[p] == '_'
    ensures DeviceLength(s, p) == 0
  {
    assert s[p..][0] == '_';
  }

  /** Device names are recognised from their own bytes and, for `COM` and `LPT`, the digit after them. */
  lemma DeviceLengthStable(r: string, t: string, p: nat, x: nat)
    requires p <= |r| && p <= |t| && x == DeviceLength(t, p) && x > 0 && p + x <= |r|
    requires r[p..p + x] == t[p..p + x]
    requires x == 3 ==> ('1' <= At(r, p + 3) <= '9' <==> '1' <= At(t, p + 3) <= '9')
    ensures DeviceLength(r, p) == x
  {
    var a, b := r[p..], t[p..];
    assert a[..3] == r[p..p + x][..3] == b[..3];
    if x == 6 {
      assert a[..6] == r[p..p + x] == b[..6];
    } else {
      if |a| >= 6 {
        LowerAllSlice(a[..6], 0, 3);
        assert a[..6][..3] == a[..3];
      }
      if x == 4 {
        assert a[3] == r[p..p + x][3] == b[3];
      }
    }
  }

  lemma SkipSpacesSame(r: string, t: string, i: nat, y: nat)
    requires i <= y <= |t| && y < |r|
    requires y == SkipSpaces(t, i)
    requires forall k :: i <= k < y ==> r[k] == t[k]
    requires r[y] != ' '
    ensures SkipSpaces(r, i) == y
    decreases y - i
  {
    if i < y {
      SkipSpacesSame(r, t, i + 1, y);
    }
  }

  /** A device name holds no separator and no space. */
  lemma DeviceNameHasNoSeparator(s: string, p: nat)
    requires p <= |s|
    ensures forall k :: p <= k < p + DeviceLength(s, p) ==> !IsSep(s[k]) && s[k] != ' '
  {
    var x := DeviceLength(s, p);
    var t := s[p..];
    forall k | p <= k < p + x
      ensures !IsSep(s[k]) && s[k] != ' '
    {
      assert s[k] == t[k - p];
      if k - p < 3 {
        assert LowerAll(t[..3])[k - p] == ToLower(s[k]);
      } else if x == 6 {
        assert LowerAll(t[..6])[k - p] == ToLower(s[k]);
      }
    }
  }

  /**
   * Whether a device name starts a path depends only on its first
   * segment: two strings that agree up to and including a separator agree
   * on it.
   */
  lemma DeviceAtFirstSegment(r: string, t: string, b: nat)
    requires 0 < b <= |r| && b <= |t| && r[..b] == t[..b] && IsSep(t[b - 1])
    ensures DeviceAt(r, 0) == DeviceAt(t, 0)
  {
    if DeviceLength(t, 0) > 0 {
      DeviceLengthFirstSegment(r, t, b);
    } else if DeviceLength(r, 0) > 0 {
      assert r[b - 1] == r[..b][b - 1] == t[..b][b - 1] == t[b - 1];
      DeviceLengthFirstSegment(t, r, b);
    }
  }

  /** One direction of `DeviceAtFirstSegment`, for a device name in `t`. */
  lemma DeviceLengthFirstSegment(r: string, t: string, b: nat)
    requires 0 < b <= |r| && b <= |t| && r[..b] == t[..b] && IsSep(t[b - 1])
    requires DeviceLength(t, 0) > 0
    ensures DeviceLength(r, 0) == DeviceLength(t, 0)
    ensures DeviceAt(r, 0) == DeviceAt(t, 0)
  {
    var x := DeviceLength(t, 0);
    DeviceNameHasNoSeparator(t, 0);
    assert x < b;
    assert r[0..x] == r[..b][..x] == t[..b][..x] == t[0..x];
    if x == 3 {
      assert 3 < b;
      assert r[3] == r[..b][3] == t[..b][3] == t[3];
    }
    DeviceLengthStable(r, t, 0, x);
    var y := SkipSpaces(t, x);
    assert y < b;
    forall k | x <= k < y
      ensures r[k] == t[k]
    {
      assert r[k] == r[..b][k] == t[..b][k];
    }
    assert r[y] == r[..b][y] == t[..b][y];
    SkipSpacesSame(r, t, x, y);
  }

  /** `tool_basename` finds the offset `b` when `b` follows the last separator. */
  lemma {:induction false} BaseOffsetIs(s: string, b: nat)
    requires b <= |s| && (b > 0 ==> IsSep(s[b - 1]))
    requires forall j :: b <= j < |s| ==> !IsSep(s[j])
    ensures BaseOffset(s) == b
    decreases |s|
  {
    if |s| > 0 && !IsSep(s[|s| - 1]) {
      BaseOffsetIs(s[..|s| - 1], b);
    }
  }

  /**
   * The renaming loop from the turn at `p`: the turn at the start of the
   * path is followed by one at its base name, when that is elsewhere.
   */
  function Passes(t: string, p: nat, flags: Flags, max: nat): (r: Option<string>)
    requires NoNul(t) && p <= |t| <= max
    decreases if p == 0 then 1 else 0
  {
    match RenameAt(t, p, flags, max)
    case None => None
    case Some(t1) =>
      var b := BaseOffset(t1);
      if p == 0 && b != 0 then Passes(t1, b, flags, max) else Some(t1)
  }

  /**
   * What `rename_if_reserved_dos_device_name(&sanitized, file_name, flags)`
   * answers, `None` standing for a null `file_name`.
   */
  function Renamed(name: Option<string>, flags: Flags, longPaths: bool): Reply
    requires name.Some? ==> NoNul(name.value)
  {
    if name.None? then Reply(ErrBadArgument, None)
    else
      var s := name.value;
      var max := MaxSanitizedLen(s, flags, longPaths);
      if |s| > max && (!flags.truncate || Dryrun(Some(s), max) != ErrOk) then Reply(ErrInvalidPath, None)
      else
        var t := if |s| > max then s[..max] else s;
        if flags.path && StartsWithDoubleBackslash(s) then Reply(ErrOk, Some(t))
        else
          match Passes(t, 0, flags, max)
          case None => Reply(ErrInvalidPath, None)
          case Some(r) => Reply(ErrOk, Some(r))
  }

  /** The name `Renamed` works on: `file_name`, cut to the limit when it is longer. */
  function RenameInput(s: string, flags: Flags, longPaths: bool): (t: string)
    ensures |t| <= MaxSanitizedLen(s, flags, longPaths) && |t| <= |s| && t == s[..|t|] && (|t| >= 255 || t == s) && (NoNul(s) ==> NoNul(t))
  {
    var max := MaxSanitizedLen(s, flags, longPaths);
    if |s| > max then s[..max] else s
  }

  /**
   * After the renaming loop neither the start of the path nor its base
   * name is a device name, and the result fits the limit.
   */
  lemma PassesRemoveDevices(t: string, flags: Flags, max: nat)
    requires NoNul(t) && |t| <= max
    requires Passes(t, 0, flags, max).Some?
    ensures var r := Passes(t, 0, flags, max).value;
      NoNul(r) && |r| <= max && !DeviceAt(r, 0) && !DeviceAt(r, BaseOffset(r))
  {
    RenameAtRemovesDevice(t, 0, flags, max);
    var t1 := RenameAt(t, 0, flags, max).value;
    var b := BaseOffset(t1);
    if b != 0 {
      RenameAtRemovesDevice(t1, b, flags, max);
      RenameAtShape(t1, b, flags, max);
      var t2 := RenameAt(t1, b, flags, max).value;
      BaseOffsetIs(t2, b);
      assert t2[..b][b - 1] == t1[b - 1];
      DeviceAtFirstSegment(t2, t1, b);
    }
  }

  /**
   * On success neither the start of the result nor its base name is a
   * device name (UNC paths under ALLOW_PATH aside) and the result fits the
   * limit; every other answer is INVALID_PATH, without a copy.
   */
  lemma RenamedRemovesDevices(name: string, flags: Flags, longPaths: bool)
    requires NoNul(name)
    ensures var reply := Renamed(Some(name), flags, longPaths);
      (reply.code == ErrOk <==> reply.sanitized.Some?) &&
      (reply.code == ErrOk || reply.code == ErrInvalidPath)
    ensures var reply := Renamed(Some(name), flags, longPaths);
      reply.code == ErrOk ==>
        var r := reply.sanitized.value;
        NoNul(r) && |r| <= MaxSanitizedLen(name, flags, longPaths) &&
        (!(flags.path && StartsWithDoubleBackslash(name)) ==> !DeviceAt(r, 0) && !DeviceAt(r, BaseOffset(r)))
  {
    var max := MaxSanitizedLen(name, flags, longPaths);
    var t := RenameInput(name, flags, longPaths);
    if Passes(t, 0, flags, max).Some? {
      PassesRemoveDevices(t, flags, max);
    }
  }

  /** A turn brings in no byte but `_`. */
  lemma RenameAtChars(t: string, p: nat, flags: Flags, max: nat)
    requires NoNul(t) && p <= |t| <= max
    ensures var r := RenameAt(t, p, flags, max);
      r.Some? ==> forall k :: 0 <= k < |r.value| ==> r.value[k] == '_' || r.value[k] in t
  {
    var r := RenameAt(t, p, flags, max);
    if r.Some? && DeviceLength(t, p) != 0 && r == Prepended(t, p, flags, max) {
      forall k | 0 <= k < |r.value|
        ensures r.value[k] == '_' || r.value[k] in t
      {
        if k < p {
          assert r.value[k] == r.value[..p][k] == t[..p][k] == t[k];
        } else if k > p {
          assert r.value[k] == t[k - 1];
        }
      }
    }
  }

  /** Neither does the renaming loop. */
  lemma PassesChars(t: string, flags: Flags, max: nat)
    requires NoNul(t) && |t| <= max
    ensures var r := Passes(t, 0, flags, max);
      r.Some? ==> forall k :: 0 <= k < |r.value| ==> r.value[k] == '_' || r.value[k] in t
  {
    RenameAtChars(t, 0, flags, max);
    var t1 := RenameAt(t, 0, flags, max);
    if t1.Some? && BaseOffset(t1.value) != 0 {
      RenameAtChars(t1.value, BaseOffset(t1.value), flags, max);
    }
  }

  /** On success every byte of the answer is `_` or a byte of the name. */
  lemma RenamedChars(name: string, flags: Flags, longPaths: bool)
    requires NoNul(name)
    ensures var reply := Renamed(Some(name), flags, longPaths);
      reply.sanitized.Some? ==>
        forall k :: 0 <= k < |reply.sanitized.value| ==> reply.sanitized.value[k] == '_' || reply.sanitized.value[k] in name
  {
    var max := MaxSanitizedLen(name, flags, longPaths);
    var t := RenameInput(name, flags, longPaths);
    PassesChars(t, flags, max);
    assert forall c :: c in t ==> c in name;
  }

  /** A turn leaves the first byte of the name alone, or makes it the `_` it inserts. */
  lemma RenameAtKeepsHead(t: string, p: nat, flags: Flags, max: nat)
    requires NoNul(t) && p <= |t| <= max
    ensures var r := RenameAt(t, p, flags, max);
      r.Some? && |r.value| > 0 ==> r.value[0] == '_' || (0 < |t| && r.value[0] == t[0])
  {
    RenameAtShape(t, p, flags, max);
  }

  /** So does the renaming loop. */
  lemma PassesKeepsHead(t: string, flags: Flags, max: nat)
    requires NoNul(t) && |t| <= max
    ensures var r := Passes(t, 0, flags, max);
      r.Some? && |r.value| > 0 ==> r.value[0] == '_' || (0 < |t| && r.value[0] == t[0])
  {
    RenameAtKeepsHead(t, 0, flags, max);
    var t1 := RenameAt(t, 0, flags, max);
    if t1.Some? && BaseOffset(t1.value) != 0 {
      RenameAtShape(t1.value, BaseOffset(t1.value), flags, max);
    }
  }

  /** The answer starts with the name's first byte or with an inserted `_`. */
  lemma RenamedKeepsHead(name: string, flags: Flags, longPaths: bool)
    requires NoNul(name)
    ensures var reply := Renamed(Some(name), flags, longPaths);
      reply.sanitized.Some? && |reply.sanitized.value| > 0 ==>
        reply.sanitized.value[0] == '_' || (0 < |name| && reply.sanitized.value[0] == name[0])
  {
    var max := MaxSanitizedLen(name, flags, longPaths);
    PassesKeepsHead(RenameInput(name, flags, longPaths), flags, max);
  }

  /** Under ALLOW_PATH a name that starts with `\\` comes back as it went in, cut to the limit. */
  lemma RenamedLeavesUncPaths(name: string, flags: Flags, longPaths: bool)
    requires NoNul(name) && flags.path && StartsWithDoubleBackslash(name)
    ensures var reply := Renamed(Some(name), flags, longPaths);
      reply.sanitized.Some? ==> reply.sanitized.value == RenameInput(name, flags, longPaths)
  {
  }

  /** A name with no device name at its start or its base name comes back as it went in (cut to the limit). */
  lemma RenamedKeepsOrdinaryNames(name: string, flags: Flags, longPaths: bool)
    requires NoNul(name)
    requires var max := MaxSanitizedLen(name, flags, longPaths);
      !(|name| > max && (!flags.truncate || Dryrun(Some(name), max) != ErrOk))
    requires var t := RenameInput(name, flags, longPaths); !DeviceAt(t, 0) && !DeviceAt(t, BaseOffset(t))
    ensures Renamed(Some(name), flags, longPaths) == Reply(ErrOk, Some(RenameInput(name, flags, longPaths)))
  {
    var max := MaxSanitizedLen(name, flags, longPaths);
    var t := RenameInput(name, flags, longPaths);
    RenameAtShape(t, 0, flags, max);
  }

  /** `CON => _CON`, an example of the comment in `rename_if_reserved_dos_device_name`. */
  lemma RenamedBareDevice()
    ensures Renamed(Some("CON"), FlagsOf(0), false) == Reply(ErrOk, Some("_CON"))
  {
    var f := FlagsOf(0);
    assert "CON"[0..][..3] == "CON";
    assert LowerAll("CON") == "con";
    assert DeviceLength("CON", 0) == 3;
    assert SkipSpaces("CON", 3) == 3;
    assert "CON"[..0] + "_" + "CON"[0..] == "_CON";
    assert RenameAt("CON", 0, f, 255) == Some("_CON");
    BaseOffsetIs("_CON", 0);
  }

  /** `CON.EXT => CON_EXT`. */
  lemma RenamedDeviceWithExtension()
    ensures Renamed(Some("CON.EXT"), FlagsOf(0), false) == Reply(ErrOk, Some("CON_EXT"))
  {
    var f := FlagsOf(0);
    assert "CON.EXT"[0..][..3] == "CON";
    assert LowerAll("CON") == "con";
    assert DeviceLength("CON.EXT", 0) == 3;
    assert SkipSpaces("CON.EXT", 3) == 3;
    assert "CON.EXT"[3 := '_'] == "CON_EXT";
    assert RenameAt("CON.EXT", 0, f, 255) == Some("CON_EXT");
    BaseOffsetIs("CON_EXT", 0);
  }

  /** `CON:ADS => CON_ADS` when colons are not allowed. */
  lemma RenamedDeviceWithStream()
    ensures Renamed(Some("CON:ADS"), FlagsOf(0), false) == Reply(ErrOk, Some("CON_ADS"))
  {
    var f := FlagsOf(0);
    assert "CON:ADS"[0..][..3] == "CON";
    assert LowerAll("CON") == "con";
    assert DeviceLength("CON:ADS", 0) == 3;
    assert SkipSpaces("CON:ADS", 3) == 3;
    assert "CON:ADS"[3 := '_'] == "CON_ADS";
    assert RenameAt("CON:ADS", 0, f, 255) == Some("CON_ADS");
    BaseOffsetIs("CON_ADS", 0);
  }

  /** `C:/COM1 => C:/_COM1` under ALLOW_PATH: the base name is renamed. */
  lemma RenamedBaseName()
    ensures Renamed(Some("C:/COM1"), FlagsOf(AllowPath), false) == Reply(ErrOk, Some("C:/_COM1"))
  {
    var f := FlagsOf(AllowPath);
    assert f.path && !f.onlyRelative;
    assert MaxSanitizedLen("C:/COM1", f, false) == 259;
    BaseNameTurns(f);
    BaseOffsetIs("C:/COM1", 3);
    assert Passes("C:/COM1", 3, f, 259) == Some("C:/_COM1");
    assert Passes("C:/COM1", 0, f, 259) == Some("C:/_COM1");
  }

  /** The two turns for `C:/COM1`: nothing at the start, `_` before `COM1`. */
  lemma BaseNameTurns(f: Flags)
    ensures RenameAt("C:/COM1", 0, f, 259) == Some("C:/COM1")
    ensures RenameAt("C:/COM1", 3, f, 259) == Some("C:/_COM1")
  {
    NoDeviceAtDrive(f);
    DeviceAfterDrive(f);
  }

  lemma NoDeviceAtDrive(f: Flags)
    ensures RenameAt("C:/COM1", 0, f, 259) == Some("C:/COM1")
  {
    assert "C:/COM1"[0..][..3] == "C:/";
    assert LowerAll("C:/") == "c:/";
    assert "C:/COM1"[0..][..6] == "C:/COM";
    assert LowerAll("C:/COM") == "c:/com";
    assert DeviceLength("C:/COM1", 0) == 0;
  }

  lemma DeviceAfterDrive(f: Flags)
    ensures RenameAt("C:/COM1", 3, f, 259) == Some("C:/_COM1")
  {
    assert "C:/COM1"[3..] == "COM1" && "COM1"[..3] == "COM";
    assert LowerAll("COM") == "com";
    assert DeviceLength("C:/COM1", 3) == 4;
    assert SkipSpaces("C:/COM1", 7) == 7;
    assert "C:/COM1"[..3] + "_" + "C:/COM1"[3..] == "C:/_COM1";
  }

  /** `\\.\COM1` is left alone under ALLOW_PATH. */
  lemma RenamedSkipsUncPaths()
    ensures Renamed(Some("\\\\.\\COM1"), FlagsOf(AllowPath), false) == Reply(ErrOk, Some("\\\\.\\COM1"))
  {
    var f := FlagsOf(AllowPath);
    assert f == Flags(false, true, false, false, false, false);
    RenamedKeepsUncPath("\\\\.\\COM1", f, false);
  }

  /** Under ALLOW_PATH a name starting with `\\` that fits the limit comes back as it is. */
  lemma RenamedKeepsUncPath(s: string, flags: Flags, longPaths: bool)
    requires NoNul(s) && flags.path && StartsWithDoubleBackslash(s) && |s| <= LongPathMax
    ensures Renamed(Some(s), flags, longPaths) == Reply(ErrOk, Some(s))
  {
  }

  /**
   * One turn of the renaming loop: recognise a device name at `p`, skip
   * the spaces after it, then turn a following `.` (or a disallowed `:`)
   * into `_`, or prepend `_`, giving up a byte at the limit.
   */
  method RenameTurn(t: string, p: nat, flags: Flags, max: nat) returns (r: Option<string>)
    requires NoNul(t) && p <= |t| <= max
    ensures r == RenameAt(t, p, flags, max)
  {
    var x := DeviceLength(t, p);
    if x == 0 {
      return Some(t);
    }
    var y := p + x;
    while At(t, y) == ' '
      invariant p + x <= y <= |t|
      invariant SkipSpaces(t, y) == SkipSpaces(t, p + x)
      decreases |t| - y
    {
      y := y + 1;
    }
    var c := At(t, y);
    if c == '.' {
      return Some(t[y := '_']);
    } else if c == ':' {
      if !(flags.colons || flags.path) {
        return Some(t[y := '_']);
      }
    } else if c != NUL {
      return Some(t);
    }
    r := PrependTurn(t, p, flags, max);
  }

  /** The `_` prepended at `p` by `memmove(p + 1, p, p_len + 1)`, after the limit check. */
  method PrependTurn(t: string, p: nat, flags: Flags, max: nat) returns (r: Option<string>)
    requires NoNul(t) && p < |t| <= max
    ensures r == Prepended(t, p, flags, max)
  {
    var pLen := |t| - p;
    if |t| == max {
      pLen := pLen - 1;
      if !flags.truncate {
        return None;
      }
      var dry := TruncateDryrun(Some(t), |t| - 1);
      if dry != ErrOk {
        return None;
      }
    }
    assert |t| == max ==> t[p..p + pLen] == t[p..|t| - 1];
    assert |t| != max ==> t[p..p + pLen] == t[p..];
    return Some(t[..p] + "_" + t[p..p + pLen]);
  }

  /**
   * `rename_if_reserved_dos_device_name`; `slot` is false for a null
   * `sanitized`.
   */
  method RenameIfReservedDosDeviceName(slot: bool, name: Option<string>, flags: Flags, longPaths: bool)
    returns (reply: Reply)
    requires name.Some? ==> NoNul(name.value)
    ensures !slot ==> reply == Reply(ErrBadArgument, None)
    ensures slot ==> reply == Renamed(name, flags, longPaths)
  {
    if !slot || name.None? {
      return Reply(ErrBadArgument, None);
    }
    var s := name.value;
    var max := MaxSanitizedLen(s, flags, longPaths);
    var tLen := |s|;
    if tLen > max {
      if !flags.truncate {
        return Reply(ErrInvalidPath, None);
      }
      var dry := TruncateDryrun(name, max);
      if dry != ErrOk {
        return Reply(ErrInvalidPath, None);
      }
      tLen := max;
    }
    var target := s[..tLen];
    assert target == RenameInput(s, flags, longPaths);
    if flags.path && At(s, 0) == '\\' && At(s, 1) == '\\' {
      return Reply(ErrOk, Some(target));
    }
    var p: Option<nat> := Some(0);
    while p.Some?
      invariant p.Some? ==> p.value <= |target| <= max && NoNul(target)
      invariant p.Some? ==> Passes(target, p.value, flags, max) == Passes(RenameInput(s, flags, longPaths), 0, flags, max)
      invariant p.None? ==> Some(target) == Passes(RenameInput(s, flags, longPaths), 0, flags, max)
      decreases if p.None? then 0 else if p.value == 0 then 2 else 1
    {
      var r := RenameTurn(target, p.value, flags, max);
      if r.None? {
        return Reply(ErrInvalidPath, None);
      }
      target := r.value;
      var base := BaseOffset(target);
      p := if p.value == 0 && base != 0 then Some(base) else None;
    }
    return Reply(ErrOk, Some(target));
  }
}
