/**
 * The small path helpers of sanitize.cpp: the DOS device-name test
 * `name_is_antiquated_dos_device` (both overloads), `splitFile`,
 * `splitExtension` and `relativePath`.
 */
module PathHelpers {
  import opened CStrings

  /**
   * `strncmp(a, b, n) == 0` for two C strings: the first `n` bytes agree,
   * where a string that ends early only agrees with one that ends there too.
   */
  predicate StrnEq(a: string, b: string, n: nat)
    requires NoNul(a) && NoNul(b)
  {
    a[..if n < |a| then n else |a|] == b[..if n < |b| then n else |b|]
  }

  predicate IsPortDigit(c: char) { '1' <= c <= '9' }

  /** The four device names accepted whatever follows them. */
  predicate HasDevicePrefix(path: string) {
    StartsWithIgnoringCase(path, "nul") || StartsWithIgnoringCase(path, "con")
    || StartsWithIgnoringCase(path, "aux") || StartsWithIgnoringCase(path, "prn")
  }

  predicate HasPortPrefix(path: string) {
    StartsWithIgnoringCase(path, "com") || StartsWithIgnoringCase(path, "lpt")
  }

  /**
   * `name_is_antiquated_dos_device(path, len)`: only the first `len` bytes
   * of `path` are examined. For `nul`, `con`, `aux` and `prn` the source
   * tests for a following `:` but returns true on both branches.
   */
  predicate NameIsAntiquatedDosDeviceN(path: string, len: nat)
    requires NoNul(path) && len <= |path|
  {
    if 3 <= len <= 5 then
      if HasDevicePrefix(path) then
        if len == 3 || StrnEq(path[3..], ":", len - 3) then true else true
      else if HasPortPrefix(path) then
        var offset := if len > 3 && IsPortDigit(path[3]) then 4 else 3;
        len == offset || StrnEq(path[offset..], ":", len - offset)
      else false
    else false
  }

  /** `name_is_antiquated_dos_device(path)`: the same test on a whole C string of at most 5 bytes. */
  predicate NameIsAntiquatedDosDevice(path: string)
    requires NoNul(path)
  {
    if |path| <= 5 then NameIsAntiquatedDosDeviceN(path, |path|) else false
  }

  /**
   * What the device test accepts: 3 to 5 bytes starting with a device
   * name, or a port name with an optional digit 1-9 and an optional `:`.
   */
  lemma AntiquatedDosDeviceExactly(path: string, len: nat)
    requires NoNul(path) && len <= |path|
    ensures NameIsAntiquatedDosDeviceN(path, len) <==>
      3 <= len <= 5 &&
      (HasDevicePrefix(path)
       || (HasPortPrefix(path)
           && (len == 3
               || (len == 4 && (IsPortDigit(path[3]) || path[3] == ':'))
               || (len == 5 && IsPortDigit(path[3]) && path[4] == ':'))))
  {
    if 3 <= len <= 5 && !HasDevicePrefix(path) && HasPortPrefix(path) {
      if len == 4 {
        assert StrnEq(path[3..], ":", 1) <==> path[3] == ':' by {
          assert path[3..][..1] == [path[3]];
        }
      } else if len == 5 {
        if IsPortDigit(path[3]) {
          assert path[4..][..1] == [path[4]];
        } else {
          assert |path[3..][..2]| == 2;
        }
      }
    }
  }

  /** The one-argument overload is the two-argument one at `len == strlen(path)`. */
  lemma DosDeviceOverloadsAgree(path: string)
    requires NoNul(path)
    ensures NameIsAntiquatedDosDevice(path) == (3 <= |path| <= 5 && NameIsAntiquatedDosDeviceN(path, |path|))
  {
  }

  // ---------------------------------------------------------------------
  // splitFile

  /** `s.rfind(c)`: the last position of `c`, if any. */
  function LastIndexOf(s: string, c: char): (r: Option<nat>)
    ensures r.Some? ==> r.value < |s| && s[r.value] == c && forall k :: r.value < k < |s| ==> s[k] != c
    ensures r.None? ==> forall k :: 0 <= k < |s| ==> s[k] != c
  {
    if s == [] then None
    else if s[|s| - 1] == c then Some(|s| - 1)
    else LastIndexOf(s[..|s| - 1], c)
  }

  /** `s.find_last_not_of(c, |s| - 1)`: the last position holding another byte, if any. */
  function LastIndexNotOf(s: string, c: char): (r: Option<nat>)
    ensures r.Some? ==> r.value < |s| && s[r.value] != c && forall k :: r.value < k < |s| ==> s[k] == c
    ensures r.None? ==> forall k :: 0 <= k < |s| ==> s[k] == c
  {
    if s == [] then None
    else if s[|s| - 1] != c then Some(|s| - 1)
    else LastIndexNotOf(s[..|s| - 1], c)
  }

  predicate AllSlashes(s: string) {
    forall k :: 0 <= k < |s| ==> s[k] == '/'
  }

  /**
   * `splitFile`: the file part is everything after the last `/`; the
   * directory part is what precedes it with its trailing `/` run removed,
   * or `/` when only slashes precede it. Without a `/` the directory part
   * is empty.
   */
  function SplitFile(path: string): (r: (string, string))
    ensures !Contains(r.1, '/')
    ensures |r.1| <= |path| && r.1 == path[|path| - |r.1|..]
    ensures !Contains(path, '/') ==> r == ("", path)
    ensures Contains(path, '/') ==>
      var head := path[..|path| - |r.1|];
      head != [] && head[|head| - 1] == '/' &&
      ((r.0 == "/" && AllSlashes(head))
       || (0 < |r.0| < |head| && r.0 == head[..|r.0|] && r.0[|r.0| - 1] != '/' && AllSlashes(head[|r.0|..])))
  {
    match LastIndexOf(path, '/')
    case None => ("", path)
    case Some(i) =>
      if i == 0 then ("/", path[1..])
      else
        match LastIndexNotOf(path[..i], '/')
        case None => ("/", path[i + 1..])
        case Some(j) => (path[..j + 1], path[i + 1..])
  }

  // ---------------------------------------------------------------------
  // splitExtension

  /**
   * Position `k` holds the dot that starts an extension: it lies in the
   * final path component, is not the component's (or the path's) first
   * byte and does not follow another dot.
   */
  predicate IsExtensionDot(path: string, k: int) {
    1 <= k < |path| && path[k] == '.' && path[k - 1] != '/' && path[k - 1] != '.'
    && forall m :: k < m < |path| ==> path[m] != '/'
  }

  /**
   * `splitExtension`: scans backwards from the end and splits before the
   * last extension dot; without one the extension is empty.
   */
  method SplitExtension(path: string) returns (stem: string, ext: string)
    ensures stem + ext == path
    ensures ext != [] ==> IsExtensionDot(path, |stem|)
    ensures forall k :: |stem| < k < |path| ==> !IsExtensionDot(path, k)
    ensures ext == [] ==> forall k :: 0 <= k < |path| ==> !IsExtensionDot(path, k)
  {
    var i := |path|;
    while i > 1 && path[i - 1] != '/'
      invariant 0 <= i <= |path|
      invariant forall m :: i <= m < |path| ==> path[m] != '/'
      invariant forall k :: i <= k < |path| ==> !IsExtensionDot(path, k)
    {
      i := i - 1;
      if path[i] == '.' && path[i - 1] != '/' && path[i - 1] != '.' {
        assert IsExtensionDot(path, i);
        return path[..i], path[i..];
      }
    }
    forall k | 0 <= k < i
      ensures !IsExtensionDot(path, k)
    {
      if 1 <= k && k < i - 1 {
        assert path[i - 1] == '/';
      }
    }
    return path, [];
  }

  // ---------------------------------------------------------------------
  // relativePath

  const ThisDir: string := "."
  const ParentDir: string := ".."

  /** The number of leading components two paths share. */
  function CommonPrefixLength(a: seq<string>, b: seq<string>): (n: nat)
    ensures n <= |a| && n <= |b| && a[..n] == b[..n]
    ensures n < |a| && n < |b| ==> a[n] != b[n]
  {
    if a == [] || b == [] || a[0] != b[0] then 0
    else
      var n := 1 + CommonPrefixLength(a[1..], b[1..]);
      assert a[..n] == [a[0]] + a[1..][..n - 1];
      assert b[..n] == [b[0]] + b[1..][..n - 1];
      n
  }

  function Repeat(x: string, n: nat): (r: seq<string>)
    ensures |r| == n && forall k :: 0 <= k < n ==> r[k] == x
  {
    if n == 0 then [] else Repeat(x, n - 1) + [x]
  }

  /**
   * The components `relativePath` joins: `.` for equal paths, otherwise
   * one `..` per base component past the common prefix followed by the
   * path's remaining components.
   */
  function RelativeComponents(path: seq<string>, base: seq<string>): seq<string> {
    var i := CommonPrefixLength(path, base);
    if i == |path| && i == |base| then [ThisDir]
    else Repeat(ParentDir, |base| - i) + path[i..]
  }

  /**
   * `relativePath` for two paths of the same absoluteness, on the component
   * lists `split` produces: the two scans and the two `push_back` loops.
   */
  method RelativePath(pathComponents: seq<string>, baseComponents: seq<string>) returns (r: seq<string>)
    ensures r == RelativeComponents(pathComponents, baseComponents)
    ensures r != []
  {
    var i := CommonComponents(pathComponents, baseComponents);
    if i == |baseComponents| && i == |pathComponents| {
      return [ThisDir];
    }
    var newComponents := ParentSteps(|baseComponents| - i);
    r := AppendComponents(newComponents, pathComponents, i);
  }

  /** The first scan of `relativePath`: the length of the shared leading components. */
  method CommonComponents(a: seq<string>, b: seq<string>) returns (i: nat)
    ensures i == CommonPrefixLength(a, b)
  {
    i := 0;
    while i != |a| && i != |b| && a[i] == b[i]
      invariant i <= |a| && i <= |b|
      invariant a[..i] == b[..i]
    {
      i := i + 1;
    }
  }

  /** The first `push_back` loop: one `..` per base component past the common prefix. */
  method ParentSteps(n: nat) returns (r: seq<string>)
    ensures r == Repeat(ParentDir, n)
  {
    r := [];
    var j := 0;
    while j != n
      invariant j <= n && r == Repeat(ParentDir, j)
    {
      r := r + [ParentDir];
      j := j + 1;
    }
  }

  /** The second `push_back` loop: the path's components from `i` on, after `prefix`. */
  method AppendComponents(prefix: seq<string>, components: seq<string>, i: nat) returns (r: seq<string>)
    requires i <= |components|
    ensures r == prefix + components[i..]
  {
    r := prefix;
    var k := i;
    while k != |components|
      invariant i <= k <= |components| && r == prefix + components[i..k]
    {
      r := r + [components[k]];
      k := k + 1;
    }
    assert components[i..k] == components[i..];
  }

  /**
   * Walking `rel` from directory `dir`: `.` stays, `..` goes up one level
   * (or stays at the top), any other component goes down.
   */
  function Resolve(dir: seq<string>, rel: seq<string>): seq<string>
    decreases |rel|
  {
    if rel == [] then dir
    else if rel[0] == ThisDir then Resolve(dir, rel[1..])
    else if rel[0] == ParentDir then Resolve(if dir == [] then [] else dir[..|dir| - 1], rel[1..])
    else Resolve(dir + [rel[0]], rel[1..])
  }

  lemma {:induction false} ResolveDown(dir: seq<string>, rest: seq<string>)
    requires forall k :: 0 <= k < |rest| ==> rest[k] != ThisDir && rest[k] != ParentDir
    ensures Resolve(dir, rest) == dir + rest
    decreases |rest|
  {
    if rest != [] {
      ResolveDown(dir + [rest[0]], rest[1..]);
      assert dir + [rest[0]] + rest[1..] == dir + rest;
    }
  }

  lemma {:induction false} ResolveUp(dir: seq<string>, n: nat, rest: seq<string>)
    requires n <= |dir|
    ensures Resolve(dir, Repeat(ParentDir, n) + rest) == Resolve(dir[..|dir| - n], rest)
    decreases n
  {
    if n > 0 {
      var rel := Repeat(ParentDir, n) + rest;
      var up := dir[..|dir| - 1];
      assert Repeat(ParentDir, n) == Repeat(ParentDir, n - 1) + [ParentDir];
      assert rel[0] == ParentDir;
      assert rel[1..] == Repeat(ParentDir, n - 1) + rest;
      assert Resolve(dir, rel) == Resolve(up, rel[1..]);
      ResolveUp(up, n - 1, rest);
      assert up[..|up| - (n - 1)] == dir[..|dir| - n];
    } else {
      assert Repeat(ParentDir, n) + rest == rest;
      assert dir[..|dir| - n] == dir;
    }
  }

  /**
   * Following the relative path from `base` leads to `path`, provided the
   * components of `path` past the common prefix are plain names.
   */
  lemma RelativePathResolves(path: seq<string>, base: seq<string>)
    requires forall k :: 0 <= k < |path| ==> path[k] != ThisDir && path[k] != ParentDir
    ensures Resolve(base, RelativeComponents(path, base)) == path
  {
    var i := CommonPrefixLength(path, base);
    if i == |path| && i == |base| {
      assert path == path[..i];
      assert base == base[..i];
    } else {
      ResolveUp(base, |base| - i, path[i..]);
      ResolveDown(base[..i], path[i..]);
      assert base[..i] + path[i..] == path[..i] + path[i..];
      assert path[..i] + path[i..] == path;
    }
  }
}
