/**
 * The output naming helper of the binarization test code in
 * sanitize-filepath.c. `register_source_filename_for_dst_path` turns the
 * path of a source image into a directory name, kept in a static buffer:
 * the file name without its extension, made safe, followed by `_H` and
 * the low 16 bits of a hash of the whole path in hexadecimal.
 * `mk_dst_filename` then names numbered output files in that directory,
 * counting calls in a static counter. The two statics and the static
 * result buffer become the fields of `Namer`.
 */
module BinarizationNames {
  import opened CStrings
  import MuNormalize
  import MuRelative

  /** `PATH_MAX` on Linux: the size of both static buffers. */
  const PathMax: nat := 4096

  /** The root the output paths are made under. */
  const OutputRoot: string := "/tmp/lept/binarization/"

  // ---------------------------------------------------------------------
  // The path hash

  const HashSeed: bv32 := 0x0033_55AA

  /**
   * One turn of the hash loop for byte `c`, in wrapping 32-bit unsigned
   * arithmetic: shift left by 5, add the byte and the byte shifted left by
   * 17, then fold the top 11 bits into the bottom.
   */
  function HashTurn(h: bv32, c: char): bv32
    requires c as int < 256
  {
    var v := c as int as bv32;
    var a := (h << 5) + v + (v << 17);
    a ^ (a >> 21)
  }

  /** The hash of the bytes of `s`, folded in left to right from the seed. */
  function PathHash(s: string): bv32
    requires IsCString(s)
  {
    if |s| == 0 then HashSeed else HashTurn(PathHash(s[..|s| - 1]), s[|s| - 1])
  }

  /** The hash loop, run over the C string `name`. */
  method PathHashOf(name: string) returns (hash: bv32)
    requires IsCString(name)
    ensures hash == PathHash(name)
  {
    hash := HashSeed;
    var i := 0;
    while i < |name|
      invariant 0 <= i <= |name|
      invariant hash == PathHash(name[..i])
    {
      assert name[..i + 1][..i] == name[..i];
      hash := HashTurn(hash, name[i]);
      i := i + 1;
    }
    assert name[..i] == name;
  }

  // ---------------------------------------------------------------------
  // The `_H` tag: `%04X` of the low 16 bits

  /** `hash & 0xFFFF`, as a number. */
  function Low16(hash: bv32): (v: nat)
    ensures v < 0x1_0000
  {
    ((hash & 0xFFFF) as bv16) as int
  }

  const HexDigits: string := "0123456789ABCDEF"

  /** The upper-case hexadecimal digit for a value below 16. */
  function HexDigit(d: nat): (c: char)
    requires d < 16
  {
    HexDigits[d]
  }

  /** The value of an upper-case hexadecimal digit: the reading side of `HexDigit`. */
  function DigitValue(c: char): nat {
    if '0' <= c <= '9' then c as int - '0' as int
    else if 'A' <= c <= 'F' then c as int - 'A' as int + 10
    else 0
  }

  /** Every value below 16 is read back from its digit, which is a letter or a digit. */
  lemma DigitValueOfHexDigit(d: nat)
    requires d < 16
    ensures DigitValue(HexDigit(d)) == d && IsAlnum(HexDigit(d))
  {
  }

  /** The four digits `%04X` prints for a value below 0x10000, most significant first. */
  function Hex4(v: nat): (r: string)
    requires v < 0x1_0000
    ensures |r| == 4
  {
    var w1 := v / 16;
    var w2 := w1 / 16;
    [HexDigit(w2 / 16), HexDigit(w2 % 16), HexDigit(w1 % 16), HexDigit(v % 16)]
  }

  /** The value of four hexadecimal digits. */
  function Hex4Value(r: string): nat
    requires |r| == 4
  {
    ((DigitValue(r[0]) * 16 + DigitValue(r[1])) * 16 + DigitValue(r[2])) * 16 + DigitValue(r[3])
  }

  /** `_H%04X` of `hash & 0xFFFF`, as the format asks for it. */
  function Tag(hash: bv32): (r: string)
    ensures |r| == 6
  {
    "_H" + Hex4(Low16(hash))
  }

  /** What `snprintf` with a size of 6 leaves of the tag: its first five bytes. */
  function TagAsWritten(hash: bv32): (r: string)
    ensures |r| == 5
  {
    Tag(hash)[..5]
  }

  /** Four digits read back as the value they print. */
  lemma Hex4RoundTrip(v: nat)
    requires v < 0x1_0000
    ensures Hex4Value(Hex4(v)) == v
    ensures forall k :: 0 <= k < 4 ==> IsAlnum(Hex4(v)[k])
  {
    var w1 := v / 16;
    var w2 := w1 / 16;
    DigitValueOfHexDigit(w2 / 16);
    DigitValueOfHexDigit(w2 % 16);
    DigitValueOfHexDigit(w1 % 16);
    DigitValueOfHexDigit(v % 16);
  }

  /**
   * The tag records the low 16 bits of the hash: its digits read back as
   * exactly those bits, so two tags differ whenever those bits do.
   */
  lemma TagRecordsHash(hash: bv32)
    ensures Tag(hash)[..2] == "_H"
    ensures Hex4Value(Tag(hash)[2..]) == Low16(hash)
    ensures forall k :: 2 <= k < 6 ==> IsAlnum(Tag(hash)[k])
  {
    assert Tag(hash)[2..] == Hex4(Low16(hash));
    Hex4RoundTrip(Low16(hash));
  }

  /** Distinct low 16 bits give distinct tags. */
  lemma TagsDistinguishHashes(h1: bv32, h2: bv32)
    ensures Tag(h1) == Tag(h2) <==> Low16(h1) == Low16(h2)
  {
    TagRecordsHash(h1);
    TagRecordsHash(h2);
    if Tag(h1) == Tag(h2) {
      assert Tag(h1)[2..] == Tag(h2)[2..];
    }
  }

  /**
   * The tag as written keeps three of the four digits: hashes whose low 16
   * bits differ only in the last digit, 0x1230 and 0x1231 say, get the
   * same tag.
   */
  lemma TagAsWrittenDropsLastDigit(h1: bv32, h2: bv32)
    requires Low16(h1) / 16 == Low16(h2) / 16
    ensures TagAsWritten(h1) == TagAsWritten(h2)
  {
  }

  // ---------------------------------------------------------------------
  // The directory name

  /** `strrchr(s, c)` as an offset. */
  function LastIndex(s: string, c: char): (r: Option<nat>)
    ensures r.None? <==> c !in s
    ensures r.Some? ==> r.value < |s| && s[r.value] == c && c !in s[r.value + 1..]
  {
    if |s| == 0 then None
    else if s[|s| - 1] == c then Some(|s| - 1)
    else
      var r := LastIndex(s[..|s| - 1], c);
      assert s == s[..|s| - 1] + [s[|s| - 1]];
      r
  }

  /** Where the file name starts: after the last `/`, failing that after the last `\`, else at 0. */
  function FileNameStart(name: string): (k: nat)
    ensures k <= |name|
  {
    match LastIndex(name, '/')
    case Some(i) => i + 1
    case None =>
      match LastIndex(name, '\\')
      case Some(i) => i + 1
      case None => 0
  }

  /**
   * The file name holds a `.`: without one `strrchr` answers NULL and the
   * length `ext - fn` is undefined.
   */
  predicate HasExtension(name: string) {
    '.' in name[FileNameStart(name)..]
  }

  /** The file name up to its last `.`, cut to `PATH_MAX - 1` bytes. */
  function Stem(name: string): (r: string)
    requires HasExtension(name)
    ensures |r| < PathMax
  {
    var fn := name[FileNameStart(name)..];
    var len := LastIndex(fn, '.').value;
    fn[..if len >= PathMax then PathMax - 1 else len]
  }

  /** The bytes kept after a letter or digit. */
  predicate Joiner(c: char) {
    c == '-' || c == '_' || c == '.'
  }

  /**
   * The sanitizing loop's verdict on position `k`: letters and digits stay,
   * `-`, `_` and `.` stay right after a letter or digit, anything else
   * becomes `_`.
   */
  function SanitizedAt(s: string, k: nat): char
    requires k < |s|
  {
    if IsAlnum(s[k]) then s[k]
    else if Joiner(s[k]) && k > 0 && IsAlnum(s[k - 1]) then s[k]
    else '_'
  }

  /** The sanitizing loop over the stem: every position judged as `SanitizedAt` says. */
  function Sanitized(s: string): (r: string)
    ensures |r| == |s| && forall k :: 0 <= k < |s| ==> r[k] == SanitizedAt(s, k)
  {
    seq(|s|, k requires 0 <= k < |s| => SanitizedAt(s, k))
  }

  /**
   * A name made of letters, digits and joiners in which a `.` or a `-`
   * only ever follows a letter or digit: it cannot be `.` or `..`, start
   * with a dot or a dash, or hold `..`.
   */
  predicate SafeName(r: string) {
    (forall k :: 0 <= k < |r| ==> IsAlnum(r[k]) || Joiner(r[k])) &&
    (forall k :: 0 <= k < |r| && (r[k] == '.' || r[k] == '-') ==> k > 0 && IsAlnum(r[k - 1]))
  }

  /** The loop makes any name safe, changing only bytes it turns into `_`, and a safe name it leaves alone. */
  lemma SanitizedIsSafe(s: string)
    ensures SafeName(Sanitized(s))
    ensures forall k :: 0 <= k < |s| ==> Sanitized(s)[k] == s[k] || Sanitized(s)[k] == '_'
    ensures SafeName(s) <==> Sanitized(s) == s
  {
    var r := Sanitized(s);
    if Sanitized(s) == s {
      assert forall k :: 0 <= k < |s| ==> s[k] == SanitizedAt(s, k);
    }
  }

  /** Sanitizing twice is sanitizing once. */
  lemma SanitizedIdempotent(s: string)
    ensures Sanitized(Sanitized(s)) == Sanitized(s)
  {
    SanitizedIsSafe(s);
    SanitizedIsSafe(Sanitized(s));
  }

  /** Where the trailing run of joiners starts. */
  function StrippedEnd(s: string): (e: nat)
    ensures e <= |s|
    ensures forall k :: e <= k < |s| ==> Joiner(s[k])
    ensures e > 0 ==> !Joiner(s[e - 1])
  {
    if |s| == 0 || !Joiner(s[|s| - 1]) then |s| else StrippedEnd(s[..|s| - 1])
  }

  /** The sanitized stem without its trailing `-`, `_` and `.`. */
  function Base(name: string): string
    requires HasExtension(name)
  {
    BaseOf(Stem(name))
  }

  /** The sanitized `stem` without its trailing joiners. */
  function BaseOf(stem: string): (r: string)
    ensures |r| <= |stem|
  {
    var s := Sanitized(stem);
    s[..StrippedEnd(s)]
  }

  /** Where the tag goes: after the base, but no later than `PATH_MAX - 7`. */
  function TagOffset(base: string): nat {
    if |base| >= PathMax - 7 then PathMax - 7 else |base|
  }

  /** The directory name `register_source_filename_for_dst_path` is meant to leave: the base, then the whole tag. */
  function DirName(name: string): string
    requires IsCString(name) && HasExtension(name)
  {
    var base := Base(name);
    base[..TagOffset(base)] + Tag(PathHash(name))
  }

  /** The directory name the source leaves: the tag cut to five bytes by the `snprintf` size. */
  function DirNameAsWritten(name: string): string
    requires IsCString(name) && HasExtension(name)
  {
    var base := Base(name);
    base[..TagOffset(base)] + TagAsWritten(PathHash(name))
  }

  /** A safe name stays safe when cut short. */
  lemma SafePrefix(r: string, n: nat)
    requires SafeName(r) && n <= |r|
    ensures SafeName(r[..n])
  {
  }

  /** A safe name holds no separator. */
  lemma SafeHasNoSeparator(r: string)
    requires SafeName(r)
    ensures '/' !in r && '\\' !in r
  {
  }

  /** Two safe names joined make a safe name. */
  lemma SafeConcat(a: string, b: string)
    requires SafeName(a) && SafeName(b)
    ensures SafeName(a + b)
  {
    var r := a + b;
    forall k | 0 <= k < |r| && (r[k] == '.' || r[k] == '-')
      ensures k > 0 && IsAlnum(r[k - 1])
    {
      if k >= |a| {
        assert r[k] == b[k - |a|];
        assert r[k - 1] == b[k - 1 - |a|];
      }
    }
  }

  /** The tag is a safe name. */
  lemma TagIsSafe(hash: bv32)
    ensures SafeName(Tag(hash))
  {
    TagRecordsHash(hash);
    var t := Tag(hash);
    assert t[0] == '_' && t[1] == 'H';
  }

  /** A base is a safe name, so it holds no terminator. */
  lemma BaseOfIsSafe(stem: string)
    ensures SafeName(BaseOf(stem)) && NoNul(BaseOf(stem))
  {
    var s := Sanitized(stem);
    SanitizedIsSafe(stem);
    SafePrefix(s, StrippedEnd(s));
  }

  /** The base, cut where the tag goes, is still a safe name. */
  lemma BaseIsSafe(name: string)
    requires HasExtension(name)
    ensures SafeName(Base(name)[..TagOffset(Base(name))])
  {
    BaseOfIsSafe(Stem(name));
    SafePrefix(Base(name), TagOffset(Base(name)));
  }

  /**
   * The directory name fits the buffer with its terminator, is a single
   * safe path component (no separator, no leading dot, no `..`), and ends
   * in a tag that records the low 16 bits of the path's hash.
   */
  lemma DirNameShape(name: string)
    requires IsCString(name) && HasExtension(name)
    ensures var r := DirName(name);
      |r| < PathMax && SafeName(r) && '/' !in r && '\\' !in r &&
      r[|r| - 6..] == Tag(PathHash(name)) && Hex4Value(r[|r| - 4..]) == Low16(PathHash(name))
  {
    var t := Tag(PathHash(name));
    var b := Base(name)[..TagOffset(Base(name))];
    var r := DirName(name);
    assert r == b + t;
    BaseIsSafe(name);
    TagIsSafe(PathHash(name));
    SafeConcat(b, t);
    SafeHasNoSeparator(r);
    TagRecordsHash(PathHash(name));
    assert r[|r| - 6..] == t;
    assert r[|r| - 4..] == t[2..];
  }

  /**
   * The finding as written: two paths with the same file name whose hashes
   * differ only in the last digit of their low 16 bits get the same
   * directory, although the whole tag tells them apart.
   */
  lemma DirNameAsWrittenCollides(n1: string, n2: string)
    requires IsCString(n1) && HasExtension(n1) && IsCString(n2) && HasExtension(n2)
    requires Base(n1) == Base(n2)
    requires Low16(PathHash(n1)) / 16 == Low16(PathHash(n2)) / 16
    ensures DirNameAsWritten(n1) == DirNameAsWritten(n2)
    ensures DirName(n1) == DirName(n2) <==> Low16(PathHash(n1)) == Low16(PathHash(n2))
  {
    TagAsWrittenDropsLastDigit(PathHash(n1), PathHash(n2));
    TagsDistinguishHashes(PathHash(n1), PathHash(n2));
    var b := Base(n1)[..TagOffset(Base(n1))];
    if DirName(n1) == DirName(n2) {
      assert Tag(PathHash(n1)) == (b + Tag(PathHash(n1)))[|b|..] == (b + Tag(PathHash(n2)))[|b|..] == Tag(PathHash(n2));
    }
  }

  /** Low 16 bits 0xE471 and 0xE476 (those of `a/x.c` and `b/x.c`) share the tag `_HE47` as written. */
  lemma TagAsWrittenExample()
    ensures TagAsWritten(0xE471) == TagAsWritten(0xE476) == "_HE47"
    ensures Tag(0xE471) == "_HE471" && Tag(0xE476) == "_HE476"
  {
    assert Low16(0xE471) == 0xE471 && Low16(0xE476) == 0xE476;
    assert 0xE471 / 16 / 16 / 16 == 14 && 0xE471 / 16 / 16 % 16 == 4 && 0xE471 / 16 % 16 == 7;
  }

  // ---------------------------------------------------------------------
  // The numbered file name

  /** The character of a decimal digit. */
  function DecimalDigit(d: nat): (c: char)
    requires d < 10
    ensures IsDigit(c)
  {
    ('0' as int + d) as char
  }

  /** The decimal digits of `n`, without leading zeros. */
  function Decimal(n: nat): (r: string)
    ensures |r| > 0 && forall k :: 0 <= k < |r| ==> IsDigit(r[k])
  {
    if n < 10 then [DecimalDigit(n)] else Decimal(n / 10) + [DecimalDigit(n % 10)]
  }

  /** `%03d` of a non-negative value: its digits, zero-padded to three. */
  function Padded3(n: nat): (r: string)
    ensures forall k :: 0 <= k < |r| ==> IsDigit(r[k])
  {
    if n < 10 then "00" + Decimal(n) else if n < 100 then "0" + Decimal(n) else Decimal(n)
  }

  /** The value of a string of decimal digits: the reading side of `Decimal`. */
  function DecimalValue(s: string): nat
    requires forall k :: 0 <= k < |s| ==> IsDigit(s[k])
  {
    if |s| == 0 then 0
    else
      var d := s[|s| - 1];
      assert IsDigit(d);
      10 * DecimalValue(s[..|s| - 1]) + (d as int - '0' as int)
  }

  /** `Decimal` reads back as the number it prints. */
  lemma {:induction false} DecimalRoundTrip(n: nat)
    ensures DecimalValue(Decimal(n)) == n
  {
    if n >= 10 {
      var d := Decimal(n);
      assert d[..|d| - 1] == Decimal(n / 10);
      DecimalRoundTrip(n / 10);
    }
  }

  /** A leading zero does not change the value. */
  lemma {:induction false} LeadingZero(s: string)
    requires forall k :: 0 <= k < |s| ==> IsDigit(s[k])
    ensures DecimalValue("0" + s) == DecimalValue(s)
  {
    if |s| > 0 {
      assert ("0" + s)[..|s|] == "0" + s[..|s| - 1];
      LeadingZero(s[..|s| - 1]);
    }
  }

  /** `%03d` reads back as the number it prints, and is three digits long exactly below 1000. */
  lemma Padded3RoundTrip(n: nat)
    ensures DecimalValue(Padded3(n)) == n
    ensures |Padded3(n)| >= 3
    ensures |Padded3(n)| == 3 <==> n < 1000
  {
    DecimalRoundTrip(n);
    DecimalLength(n);
    if n < 10 {
      LeadingZero(Decimal(n));
      LeadingZero("0" + Decimal(n));
      assert "00" + Decimal(n) == "0" + ("0" + Decimal(n));
    } else if n < 100 {
      LeadingZero(Decimal(n));
    }
  }

  /** How many digits `Decimal` prints. */
  lemma {:induction false} DecimalLength(n: nat)
    ensures n < 10 ==> |Decimal(n)| == 1
    ensures 10 <= n < 100 ==> |Decimal(n)| == 2
    ensures 100 <= n < 1000 ==> |Decimal(n)| == 3
    ensures 1000 <= n ==> |Decimal(n)| > 3
  {
    if n >= 10 {
      DecimalLength(n / 10);
    }
  }

  /** The text `mk_dst_filename` formats, before `snprintf` cuts it to the buffer. */
  function DstText(dir: string, index: nat, name: string): string {
    OutputRoot + dir + "/" + Padded3(index) + "-" + name
  }

  /** What `mk_dst_filename` returns for the directory name, the counter and the file name. */
  function DstPath(dir: string, index: nat, name: string): (r: string)
    ensures |r| < PathMax
  {
    MuRelative.Truncated(DstText(dir, index, name), PathMax)
  }

  /** The first `-` of a string that starts with digits then `-`. */
  lemma FirstDash(p: string, rest: string, q: string, rest2: string)
    requires forall k :: 0 <= k < |p| ==> IsDigit(p[k])
    requires forall k :: 0 <= k < |q| ==> IsDigit(q[k])
    requires p + "-" + rest == q + "-" + rest2
    ensures p == q
  {
    var x := p + "-" + rest;
    assert x[|p|] == '-';
    assert x[|q|] == '-' by {
      assert x == q + "-" + rest2;
    }
    assert forall k :: 0 <= k < |p| ==> x[k] == p[k];
    assert forall k :: 0 <= k < |q| ==> x[k] == q[k] by {
      assert x == q + "-" + rest2;
    }
    assert |p| == |q|;
    assert p == x[..|p|] && q == x[..|q|];
  }

  /**
   * In one directory, outputs numbered differently never get the same
   * path, whatever the file names, as long as neither is cut short.
   */
  lemma NumberedPathsDiffer(dir: string, i: nat, j: nat, n1: string, n2: string)
    requires i != j
    requires |DstText(dir, i, n1)| < PathMax && |DstText(dir, j, n2)| < PathMax
    ensures DstPath(dir, i, n1) != DstPath(dir, j, n2)
  {
    DstPathUncut(dir, i, n1);
    DstPathUncut(dir, j, n2);
    NumberedNamesDiffer(i, j, n1, n2);
    SamePrefixDiffers(OutputRoot + dir + "/", Padded3(i) + "-" + n1, Padded3(j) + "-" + n2);
  }

  /** A path that fits is the directory part followed by the numbered name. */
  lemma DstPathUncut(dir: string, i: nat, n: string)
    requires |DstText(dir, i, n)| < PathMax
    ensures DstPath(dir, i, n) == (OutputRoot + dir + "/") + (Padded3(i) + "-" + n)
  {
  }

  lemma SamePrefixDiffers(h: string, a: string, b: string)
    requires a != b
    ensures h + a != h + b
  {
    assert (h + a)[|h|..] == a && (h + b)[|h|..] == b;
  }

  /** The numbered file names differ when their numbers do. */
  lemma NumberedNamesDiffer(i: nat, j: nat, n1: string, n2: string)
    requires i != j
    ensures Padded3(i) + "-" + n1 != Padded3(j) + "-" + n2
  {
    Padded3RoundTrip(i);
    Padded3RoundTrip(j);
    if Padded3(i) + "-" + n1 == Padded3(j) + "-" + n2 {
      FirstDash(Padded3(i), n1, Padded3(j), n2);
    }
  }

  // ---------------------------------------------------------------------
  // The buffer operations

  /**
   * The sanitizing loop over the C string `s` held in `a`: each byte is
   * checked against the previous one's verdict and replaced in place.
   */
  method SanitizeInPlace(a: array<char>, ghost s: string)
    requires |s| < a.Length && a[..|s|] == s && a[|s|] == NUL && NoNul(s)
    modifies a
    ensures a[..|s|] == Sanitized(s)
    ensures forall k :: |s| <= k < a.Length ==> a[k] == old(a[k])
  {
    var i := 0;
    var dotAllowed := false;
    while a[i] != NUL
      invariant 0 <= i <= |s|
      invariant forall k :: 0 <= k < i ==> a[k] == SanitizedAt(s, k)
      invariant forall k :: i <= k < a.Length ==> a[k] == old(a[k])
      invariant dotAllowed <==> i > 0 && IsAlnum(s[i - 1])
      decreases |s| - i
    {
      assert a[i] == s[i] by {
        assert old(a[..|s|])[i] == s[i];
      }
      var c := a[i];
      if IsAlnum(c) {
        dotAllowed := true;
      } else if Joiner(c) && dotAllowed {
        dotAllowed := false;
      } else {
        dotAllowed := false;
        a[i] := '_';
      }
      i := i + 1;
    }
    assert i == |s|;
  }

  /**
   * The loop from `strlen(dstdirname) - 1` down: joiners at the end become
   * terminators until another byte is met.
   */
  method StripJoiners(a: array<char>, ghost s: string) returns (ghost e: nat)
    requires |s| < a.Length && a[..|s|] == s && a[|s|] == NUL && NoNul(s)
    modifies a
    ensures e == StrippedEnd(s)
    ensures a[..e] == s[..e] && a[e] == NUL
    ensures forall k :: |s| < k < a.Length ==> a[k] == old(a[k])
  {
    var n := MuNormalize.StrLen(a);
    assert n == |s| by {
      assert a[..][..|s|] == s;
      CStrOfPrefix(a[..], |s|);
    }
    var i := n as int - 1;
    while i >= 0
      invariant -1 <= i < |s|
      invariant a[..i + 1] == s[..i + 1]
      invariant forall k :: i + 1 <= k <= |s| ==> a[k] == NUL
      invariant forall k :: |s| < k < a.Length ==> a[k] == old(a[k])
      invariant StrippedEnd(s) == StrippedEnd(s[..i + 1])
    {
      var c := a[i];
      if !Joiner(c) {
        break;
      }
      assert s[..i + 1][..i] == s[..i];
      a[i] := NUL;
      i := i - 1;
    }
    e := i + 1;
  }

  /** The tag written at `offset` with room for all four digits, and its terminator. */
  method PutTag(a: array<char>, offset: nat, hash: bv32)
    requires offset + 6 < a.Length
    modifies a
    ensures a[..offset] == old(a[..offset])
    ensures a[offset..offset + 6] == Tag(hash) && a[offset + 6] == NUL
    ensures forall k :: offset + 6 < k < a.Length ==> a[k] == old(a[k])
  {
    var t := Tag(hash);
    forall k | 0 <= k < 6 {
      a[offset + k] := t[k];
    }
    a[offset + 6] := NUL;
  }

  /** Copying `s` and its terminator to the front of `a`. */
  method PutStem(a: array<char>, s: string)
    requires |s| < a.Length
    modifies a
    ensures a[..|s|] == s && a[|s|] == NUL
    ensures forall k :: |s| < k < a.Length ==> a[k] == old(a[k])
  {
    forall k | 0 <= k < |s| {
      a[k] := s[k];
    }
    a[|s|] := NUL;
  }

  /**
   * The copy of the stem and its terminator, the sanitizing loop and the
   * strip of trailing joiners: the buffer then holds the base.
   */
  method PutBase(a: array<char>, stem: string)
    requires |stem| < a.Length && NoNul(stem)
    modifies a
    ensures a[..|BaseOf(stem)|] == BaseOf(stem) && a[|BaseOf(stem)|] == NUL
    ensures forall k :: |stem| < k < a.Length ==> a[k] == old(a[k])
  {
    PutStem(a, stem);
    SanitizeInPlace(a, stem);
    SanitizedIsSafe(stem);
    ghost var e := StripJoiners(a, Sanitized(stem));
  }

  /**
   * `strlen` of the base, the clamp to `PATH_MAX - 7`, the tag and the
   * buffer's last terminator: the buffer then holds the directory name.
   */
  method AppendTag(a: array<char>, ghost base: string, hash: bv32)
    requires a.Length == PathMax && |base| < PathMax && a[..|base|] == base && a[|base|] == NUL && NoNul(base)
    modifies a
    ensures a[PathMax - 1] == NUL && CStrOf(a[..]) == base[..TagOffset(base)] + Tag(hash)
  {
    CStrOfPrefix(a[..], |base|);
    var offset := MuNormalize.StrLen(a);
    if offset >= PathMax - 7 {
      offset := PathMax - 7;
    }
    PutTerminatedTag(a, base[..offset], offset, hash);
  }

  /** The tag written after `b`, and the terminator in the buffer's last byte. */
  method PutTerminatedTag(a: array<char>, ghost b: string, offset: nat, hash: bv32)
    requires a.Length == PathMax && offset == |b| <= PathMax - 7 && a[..offset] == b && NoNul(b)
    modifies a
    ensures a[PathMax - 1] == NUL && CStrOf(a[..]) == b + Tag(hash)
  {
    PutTag(a, offset, hash);
    a[PathMax - 1] := NUL;
    TagRecordsHash(hash);
    DirNameFound(a[..], b, Tag(hash));
  }

  /**
   * The static state of the naming helper: the directory name buffer, the
   * output counter, and the buffer `mk_dst_filename` returns.
   */
  class Namer {
    /** `static char dstdirname[PATH_MAX]`. */
    const dstDirName: array<char>
    /** `static int index`. */
    var index: int
    /** The string in `mk_dst_filename`'s `static char dstpath[PATH_MAX]`. */
    var dstPath: string

    /** The buffer has its size and its last byte is a terminator; the counter has not gone negative. */
    predicate Valid()
      reads this, dstDirName
    {
      dstDirName.Length == PathMax && dstDirName[PathMax - 1] == NUL && 0 <= index
    }

    /** The directory name the buffer holds. */
    function DirectoryName(): string
      reads this, dstDirName
    {
      CStrOf(dstDirName[..])
    }

    /** The statics as the program starts: zeroed buffers, counter 0. */
    constructor ()
      ensures Valid() && fresh(dstDirName)
      ensures DirectoryName() == "" && index == 0 && dstPath == ""
    {
      dstDirName := new char[PathMax](_ => NUL);
      index := 0;
      dstPath := "";
    }

    /**
     * `register_source_filename_for_dst_path(name)`: hash the path, copy
     * the file name up to its last `.`, sanitize it, strip trailing
     * joiners, and append the tag at most `PATH_MAX - 7` bytes in.
     */
    method RegisterSourceFilename(name: string)
      requires Valid() && IsCString(name) && HasExtension(name)
      modifies dstDirName
      ensures Valid() && DirectoryName() == DirName(name)
    {
      var hash := PathHashOf(name);
      var fn := FileNameStart(name);
      var len := LastIndex(name[fn..], '.').value;
      if len >= PathMax {
        len := PathMax - 1;
      }
      var stem := name[fn..][..len];
      assert stem == Stem(name);
      PutBase(dstDirName, stem);
      BaseOfIsSafe(stem);
      AppendTag(dstDirName, BaseOf(stem), hash);
    }

    /**
     * `mk_dst_filename(name)`: the output path for the current count, cut
     * to the buffer; the counter moves on. The counter is a C `int`, so a
     * call at its maximum is undefined.
     */
    method MkDstFilename(name: string) returns (path: string)
      requires Valid() && IsCString(name) && index < 0x7FFF_FFFF
      modifies this
      ensures Valid() && index == old(index) + 1
      ensures path == dstPath == DstPath(DirectoryName(), old(index), name)
    {
      dstPath := DstPath(CStrOf(dstDirName[..]), index, name);
      index := index + 1;
      path := dstPath;
    }
  }

  /** A buffer holding `b`, then the tag and a terminator, holds the C string `b + t`. */
  lemma DirNameFound(buf: seq<char>, b: string, t: string)
    requires |b| + 6 < |buf| && buf[..|b|] == b && buf[|b|..|b| + 6] == t && buf[|b| + 6] == NUL
    requires NoNul(b) && NoNul(t)
    ensures CStrOf(buf) == b + t
  {
    assert buf[..|b| + 6] == b + t;
    CStrOfPrefix(buf, |b| + 6);
  }
}
