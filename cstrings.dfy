/**
 * Byte strings as the C and C++ sources see them.
 *
 * A `string` here stands for a NUL-terminated `char` array whose bytes are
 * the characters 0..255 of the sequence; the terminator itself is not part
 * of the sequence. `At(s, i)` reads position `i` of such a string, where
 * reading index `|s|` yields the terminator. Reading further than that is
 * undefined behaviour in the source, so `At` requires `i <= |s|`: every
 * place where the source could read past the terminator becomes a
 * precondition that rules the offending input out.
 */
module CStrings {

  datatype Option<T> = None | Some(value: T)

  /** A value, or the message of the error the source raises instead. */
  datatype Result<T> = Ok(value: T) | Err(message: string)

  const NUL: char := 0 as char

  /** A C string: bytes only and no embedded terminator. */
  predicate IsCString(s: string) {
    forall i :: 0 <= i < |s| ==> s[i] != NUL && s[i] as int < 256
  }

  /** `s[i]` of a NUL-terminated string, where `s[|s|]` is the terminator. */
  function At(s: string, i: int): (c: char)
    requires 0 <= i <= |s|
    ensures c == NUL <== i == |s|
  {
    if i < |s| then s[i] else NUL
  }

  // The "C" locale character classes of <ctype.h>.

  predicate IsDigit(c: char) { '0' <= c <= '9' }
  predicate IsUpper(c: char) { 'A' <= c <= 'Z' }
  predicate IsLower(c: char) { 'a' <= c <= 'z' }
  predicate IsAlpha(c: char) { IsUpper(c) || IsLower(c) }
  predicate IsAlnum(c: char) { IsAlpha(c) || IsDigit(c) }
  /** `isspace`: blank, tab, newline, vertical tab, form feed, carriage return. */
  predicate IsSpace(c: char) { c == ' ' || '\t' <= c <= '\r' }

  function ToUpper(c: char): (r: char)
    ensures IsLower(c) ==> IsUpper(r) && r as int == c as int - 32
    ensures !IsLower(c) ==> r == c
  {
    if IsLower(c) then (c as int - 32) as char else c
  }

  function ToLower(c: char): (r: char)
    ensures IsUpper(c) ==> IsLower(r) && r as int == c as int + 32
    ensures !IsUpper(c) ==> r == c
  {
    if IsUpper(c) then (c as int + 32) as char else c
  }

  /** Two bytes that `strcasecmp` treats as equal. */
  predicate SameIgnoringCase(a: char, b: char) {
    ToLower(a) == ToLower(b)
  }

  /** `strcasecmp(a, b) == 0` for two C strings. */
  predicate EqualIgnoringCase(a: string, b: string) {
    LowerAll(a) == LowerAll(b)
  }

  lemma EqualIgnoringCaseAt(a: string, b: string)
    ensures EqualIgnoringCase(a, b) <==> |a| == |b| && forall i :: 0 <= i < |a| ==> SameIgnoringCase(a[i], b[i])
  {
    if |a| == |b| && forall i :: 0 <= i < |a| ==> SameIgnoringCase(a[i], b[i]) {
      assert LowerAll(a) == LowerAll(b);
    }
  }

  lemma LowerAllSlice(a: string, i: nat, j: nat)
    requires i <= j <= |a|
    ensures LowerAll(a[i..j]) == LowerAll(a)[i..j]
  {
  }

  /** `strncasecmp(s, p, strlen(p)) == 0`: `s` starts with `p`, ignoring case. */
  predicate StartsWithIgnoringCase(s: string, p: string) {
    |p| <= |s| && EqualIgnoringCase(s[..|p|], p)
  }

  /** Against a pattern without upper-case letters, the test compares the lowered input. */
  lemma StartsWithIgnoringCaseLower(s: string, p: string)
    requires forall i :: 0 <= i < |p| ==> !IsUpper(p[i])
    ensures StartsWithIgnoringCase(s, p) <==> |p| <= |s| && LowerAll(s)[..|p|] == p
  {
    if |p| <= |s| {
      LowerAllSlice(s, 0, |p|);
      assert LowerAll(p) == p;
    }
  }

  predicate StartsWith(s: string, p: string) {
    |p| <= |s| && s[..|p|] == p
  }

  /** Whether `c` occurs in `s` (the `strchr` test, without the terminator). */
  predicate Contains(s: string, c: char) {
    c in s
  }

  /** `strchr(chars, c) != NULL`: a NUL byte matches the terminator of `chars`. */
  predicate StrChr(chars: string, c: char) {
    c == NUL || Contains(chars, c)
  }

  /** No byte of `s` is the terminator. */
  predicate NoNul(s: string) {
    forall i :: 0 <= i < |s| ==> s[i] != NUL
  }

  /** `s` with every letter lower-cased, the form `strcasecmp` compares. */
  function LowerAll(s: string): (r: string)
    ensures |r| == |s|
    ensures forall i :: 0 <= i < |s| ==> r[i] == ToLower(s[i])
  {
    seq(|s|, i requires 0 <= i < |s| => ToLower(s[i]))
  }

  /** The C string stored in a buffer: everything before the first NUL. */
  function CStrOf(buf: seq<char>): (s: string)
    ensures |s| <= |buf|
    ensures s == buf[..|s|]
    ensures forall i :: 0 <= i < |s| ==> s[i] != NUL
    ensures |s| < |buf| ==> buf[|s|] == NUL
  {
    if buf == [] || buf[0] == NUL then [] else [buf[0]] + CStrOf(buf[1..])
  }

  lemma CStrOfTerminated(buf: seq<char>, n: nat)
    requires n < |buf| && buf[n] == NUL
    requires forall i :: 0 <= i < n ==> buf[i] != NUL
    ensures CStrOf(buf) == buf[..n]
  {
  }

  /** A buffer whose first `n` bytes are not NUL and whose byte `n` is. */
  lemma CStrOfPrefix(buf: seq<char>, n: nat)
    requires n < |buf| && buf[n] == NUL && NoNul(buf[..n])
    ensures CStrOf(buf) == buf[..n]
  {
    assert forall i :: 0 <= i < n ==> buf[..n][i] == buf[i];
    CStrOfTerminated(buf, n);
  }

  /**
   * `memmove(a + dst, a + src, n)` with `dst <= src`: the bytes from `src`
   * move down to `dst`; everything else keeps its value.
   */
  method MemMoveDown(a: array<char>, dst: nat, src: nat, n: nat)
    requires dst <= src && src + n <= a.Length
    modifies a
    ensures a[..] == old(a[..dst]) + old(a[src..src + n]) + old(a[dst + n..])
  {
    var k := 0;
    while k < n
      invariant 0 <= k <= n
      invariant a[..dst] == old(a[..dst])
      invariant a[dst..dst + k] == old(a[src..src + k])
      invariant a[dst + k..] == old(a[dst + k..])
      invariant forall j :: src + k <= j < a.Length ==> a[j] == old(a[j])
    {
      a[dst + k] := a[src + k];
      k := k + 1;
    }
    assert a[..] == a[..dst] + a[dst..dst + n] + a[dst + n..];
  }
}
