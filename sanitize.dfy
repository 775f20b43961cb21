/**
 * `fz_sanitize_path_ex` and its wrapper `fz_sanitize_path` of
 * sanitize-filepath.c: one left-to-right pass with a read offset `p` and a
 * write offset `d <= p` over the buffer, which keeps a drive or UNC leader,
 * drops leading slashes, and rewrites every other byte by a fixed set of
 * rules, a caller-supplied replacement set, and a collapse of runs of
 * identical replacement bytes.
 *
 * The value-level `Clean` follows the loop one input byte (or one UTF-8
 * sequence, or one `printf` specifier) at a time; `SanitizePathEx` on the
 * buffer is proved to leave exactly what `Sanitized` computes.
 *
 * The UTF-8 decoder `fz_chartorune_unsafe` and the table of legal code
 * points are not part of this model: they are the `decode` and `legal`
 * fields of `Rules`.
 */
module MuSanitize {
  import opened CStrings
  import MuReserved
  import MuHash
  import MuNormalize

  /** `Runeerror`, what the decoder yields for a malformed sequence. */
  const RuneError: int := 0xFFFD
  /** The longest segment the Linux file systems accept. */
  const MaxSegmentLength: nat := 255

  /** `fz_chartorune_unsafe`: the code point at the start of a string and the bytes it takes. */
  type Decoder = string -> (int, nat)

  /** The decoder consumes at least one byte and never reads past the end. */
  ghost predicate DecoderStaysWithin(decode: Decoder) {
    forall t: string :: |t| > 0 ==> 1 <= decode(t).1 <= |t|
  }

  /**
   * The caller's replacement set, the replacement map (`"_"` when absent or
   * empty), and `has_printf_format_repl_idx1`: one more than the map index
   * for `f`, or 0 when `f` is not in the set.
   */
  datatype Replacement = Replacement(chars: string, single: string, formatIndex: nat)

  /**
   * A code point the decoder accepts after a byte above 0x7F is made of
   * such bytes only: the decoder checks every continuation byte.
   */
  ghost predicate DecoderReadsSequence(decode: Decoder) {
    forall t: string :: |t| > 0 && t[0] as int > 0x7F && decode(t).0 != RuneError ==>
      forall k :: 0 <= k < decode(t).1 && k < |t| ==> t[k] as int > 0x7F
  }

  datatype Rules = Rules(repl: Replacement, decode: Decoder, legal: int -> bool)

  ghost predicate ValidRules(rules: Rules) {
    1 <= |rules.repl.single| && rules.repl.formatIndex <= |rules.repl.single| && NoNul(rules.repl.single)
    && DecoderStaysWithin(rules.decode) && DecoderReadsSequence(rules.decode)
  }

  /**
   * The bytes the pass writes into the sanitized region besides `/`:
   * letters, digits, `_ ( ) . - $`, the caller's replacements, and the
   * bytes of an accepted UTF-8 sequence.
   */
  predicate Emitted(c: char, rules: Rules) {
    IsAlnum(c) || (c == '_' || c == '(' || c == ')' || c == '.' || c == '-' || c == '$') || c in rules.repl.single || c as int > 0x7F
  }

  /** `strchr(s, c) - s`, for a byte that is not the terminator. */
  function FirstIndex(s: string, c: char): (r: Option<nat>)
    ensures r.Some? ==> r.value < |s| && s[r.value] == c && forall k :: 0 <= k < r.value ==> s[k] != c
    ensures r.None? ==> c !in s
  {
    if |s| == 0 then None
    else if s[0] == c then Some(0)
    else match FirstIndex(s[1..], c)
      case None => None
      case Some(k) => Some(k + 1)
  }

  /** The map entry for set index `idx`, the last one when the map is shorter. */
  function MapEntry(single: string, idx: nat): char
    requires 1 <= |single|
  {
    if idx >= |single| then single[|single| - 1] else single[idx]
  }

  /** The replacement setup at the top of `fz_sanitize_path_ex`. */
  function MakeReplacement(replaceSet: Option<string>, single: Option<string>): (r: Replacement)
    ensures r.chars == (if replaceSet.Some? then replaceSet.value else "")
    ensures r.single == (if single.None? || single.value == "" then "_" else single.value)
    ensures 1 <= |r.single| && r.formatIndex <= |r.single|
    ensures (single.Some? ==> NoNul(single.value)) ==> NoNul(r.single)
    ensures r.formatIndex > 0 <==> 'f' in r.chars
    ensures r.formatIndex > 0 ==> r.single[r.formatIndex - 1] == MapEntry(r.single, FirstIndex(r.chars, 'f').value)
  {
    var single' := if single.None? || single.value == "" then "_" else single.value;
    var chars := if replaceSet.None? then "" else replaceSet.value;
    match FirstIndex(chars, 'f')
    case None => Replacement(chars, single', 0)
    case Some(m) => Replacement(chars, single', (if m >= |single'| then |single'| - 1 else m) + 1)
  }

  // ---------------------------------------------------------------------
  // The byte classes of the fixed rules.

  /** NTFS-illegal, shell-risky and wildcard bytes. */
  predicate Banned(c: char) {
    c == '`' || c == '"' || c == '*' || c == '@' || c == '=' || c == '|' || c == ';' || c == '?' || c == ':'
  }

  predicate Brace(c: char) {
    c == '{' || c == '}' || c == '[' || c == ']' || c == '<' || c == '>'
  }

  /** `"()"[idx % 2]` for the brace at `idx` of `"{}[]<>"`. */
  function BraceReplacement(c: char): (r: char)
    requires Brace(c)
    ensures r == '(' <==> (c == '{' || c == '[' || c == '<')
    ensures r == ')' <==> (c == '}' || c == ']' || c == '>')
  {
    if (c == '{' || c == '[' || c == '<') then '(' else ')'
  }

  predicate FormatFlag(c: char) {
    c == '+' || c == '-' || c == ' ' || c == '.' || IsDigit(c) || c == '*'
  }

  predicate LengthModifier(c: char) {
    c == 'l' || c == 'z'
  }

  predicate Conversion(c: char) {
    c == 'd' || c == 'l' || c == 'f' || c == 'g' || c == 'e' || c == 's' || c == 'p' || c == 'u' || c == 'i' || c == 'z' || c == 'x' || c == 'c'
  }

  /** Past the run of `c` that starts at `i`. */
  function SkipWhile(s: string, j: nat, c: char): (r: nat)
    requires j <= |s|
    ensures j <= r <= |s|
    ensures forall k :: j <= k < r ==> s[k] == c
    ensures r == |s| || s[r] != c
    decreases |s| - j
  {
    if j < |s| && s[j] == c then SkipWhile(s, j + 1, c) else j
  }

  /** Past the flags, one optional length modifier and one optional conversion of a `printf` specifier. */
  function SkipFormat(s: string, j: nat): (r: nat)
    requires j <= |s|
    ensures j <= r <= |s|
    decreases |s| - j
  {
    if j < |s| && FormatFlag(s[j]) then SkipFormat(s, j + 1)
    else
      var k := if j < |s| && LengthModifier(s[j]) then j + 1 else j;
      if k < |s| && Conversion(s[k]) then k + 1 else k
  }

  /** What one turn of the loop writes for a byte that is not `/`, where it reads on, and whether it counts as a replacement. */
  datatype Emit = Emit(written: string, next: nat, counts: bool)

  function Replaced(c: char, next: nat): Emit {
    Emit([c], next, true)
  }

  function Kept(c: char, next: nat): Emit {
    Emit([c], next, false)
  }

  /**
   * A byte above 0x7F outside the caller's set starts a UTF-8 sequence: a
   * code point the `legal` test accepts is copied whole, an undecodable
   * byte or an illegal code point becomes one `_`.
   */
  function Sequence(s: string, i: nat, rules: Rules): (e: Emit)
    requires ValidRules(rules) && i < |s| && s[i] as int > 0x7F
    ensures i < e.next <= |s| && 1 <= |e.written| <= e.next - i
    ensures e.counts ==> |e.written| == 1
    ensures forall k :: 0 <= k < |e.written| ==> Emitted(e.written[k], rules)
  {
    var (u, l) := rules.decode(s[i..]);
    if u == RuneError then Replaced('_', i + 1)
    else if u <= 65535 && rules.legal(u) then Emit(s[i..i + l], i + l, false)
    else Replaced('_', i + l)
  }

  /**
   * The rules for the byte `s[i]`, `out` being what was written so far
   * and `seg` where the current segment starts in it.
   */
  function Rewrite(s: string, i: nat, out: string, seg: nat, rules: Rules): (e: Emit)
    requires ValidRules(rules)
    requires i < |s| && s[i] != '/' && seg <= |out|
    ensures i < e.next <= |s| && 1 <= |e.written| <= e.next - i
    ensures e.counts ==> |e.written| == 1
    ensures forall k :: 0 <= k < |e.written| ==> Emitted(e.written[k], rules)
  {
    var c := s[i];
    var repl := rules.repl;
    var next := At(s, i + 1);
    if repl.formatIndex > 0 && c == '%' then
      Replaced(repl.single[repl.formatIndex - 1], SkipFormat(s, i + 1))
    else if c in repl.chars then
      var j := if c == '#' then SkipWhile(s, i + 1, '#') else i + 1;
      Replaced(MapEntry(repl.single, FirstIndex(repl.chars, c).value), j)
    else if c as int > 0x7F then Sequence(s, i, rules)
    else if c < ' ' || c as int == 0x7F then Replaced('_', i + 1)
    else if Banned(c) then Replaced('_', i + 1)
    else if Brace(c) then Replaced(BraceReplacement(c), i + 1)
    else if c == '.' then
      if next == NUL || next == '.' || next == '/' then Replaced('_', i + 1) else Kept('.', i + 1)
    else if c == '$' then
      if next == NUL || next == '/' then Replaced('_', i + 1)
      else if |out| == 0 || out[|out| - 1] == ':' || out[|out| - 1] == '/' then Replaced('_', i + 1)
      else Kept('$', i + 1)
    else if IsAlnum(c) then Kept(c, i + 1)
    else if c == '-' then
      if next == NUL || next == '/' then Replaced('_', i + 1)
      else if |out| == seg then Replaced('_', i + 1)
      else Kept('-', i + 1)
    else if (c == '_' || c == '(' || c == ')') then Kept(c, i + 1)
    else Replaced('_', i + 1)
  }

  /**
   * The collapse at the top of each turn: while more than one replacement
   * was written in a row and the last two written bytes are equal, drop
   * the last one.
   */
  function Collapse(out: string, seg: nat, count: nat): (r: (string, nat))
    requires seg <= |out| && count <= |out| - seg
    ensures seg <= |r.0| <= |out| && r.1 <= |r.0| - seg && r.0 == out[..|r.0|]
    ensures |out| - |r.0| == count - r.1
    ensures r.1 <= 1 || r.0[|r.0| - 1] != r.0[|r.0| - 2]
    ensures count >= 1 ==> r.1 >= 1
    decreases count
  {
    if count > 1 && out[|out| - 1] == out[|out| - 2] then Collapse(out[..|out| - 1], seg, count - 1)
    else (out, count)
  }

  /** A segment closed by `/` that would be handed to the renaming code, which never returns. */
  predicate NeedsRenaming(segment: string) {
    MuReserved.IsReservedFilename(segment) || |segment| > MaxSegmentLength
  }

  /**
   * The main loop from read offset `i`, with `out` written so far, the
   * current segment starting at `seg` of `out`, and `count` replacements
   * written in a row. `None` when a segment needs renaming: that branch
   * does not terminate.
   */
  function Clean(s: string, i: nat, out: string, seg: nat, count: nat, rules: Rules): (r: Option<string>)
    requires ValidRules(rules)
    requires i <= |s| && seg <= |out| && count <= |out| - seg
    ensures r.Some? ==> |r.value| <= |out| + (|s| - i)
    decreases |s| - i
  {
    if i == |s| then Some(out)
    else
      var (out1, count1) := Collapse(out, seg, count);
      if s[i] == '/' then
        if NeedsRenaming(out1[seg..]) then None
        else
          var out2 := out1 + "/";
          Clean(s, SkipWhile(s, i + 1, '/'), out2, |out2|, 0, rules)
      else
        var e := Rewrite(s, i, out1, seg, rules);
        Clean(s, e.next, out1 + e.written, seg, if e.counts then count1 + 1 else 0, rules)
  }

  // ---------------------------------------------------------------------
  // What precedes the sanitized region.

  /** Bytes the `//server` scan walks over: `isalnum(*p) || strchr("_-$", *p)`. */
  predicate ServerChar(c: char) {
    IsAlnum(c) || c == '_' || c == '-' || c == '$'
  }

  /** A `//` start that is not a `//?/` or `//./` leader. */
  predicate ServerStart(s: string) {
    2 <= |s| && s[0] == '/' && s[1] == '/' && !(4 <= |s| && (s[2] == '.' || s[2] == '?') && s[3] == '/')
  }

  /**
   * The leader tests stay within the string: `//` would be read at
   * `e[3]`, and the server scan matches the terminator with
   * `strchr("_-$", 0)` and runs on past it unless some byte stops it.
   */
  predicate LeadReadsWithinString(s: string) {
    s != "//" && (ServerStart(s) ==> exists k :: 2 <= k < |s| && !ServerChar(s[k]))
  }

  /** The first byte at or after `p` that ends a server name. */
  function ServerEnd(s: string, p: nat): (r: nat)
    requires p <= |s| && exists k :: p <= k < |s| && !ServerChar(s[k])
    ensures p <= r < |s| && !ServerChar(s[r])
    ensures forall k :: p <= k < r ==> ServerChar(s[k])
    decreases |s| - p
  {
    if !ServerChar(s[p]) then p
    else
      assert exists k :: p + 1 <= k < |s| && !ServerChar(s[k]);
      ServerEnd(s, p + 1)
  }

  /** Past a chain of `../` starting at `e`. */
  function SkipParents(s: string, e: nat): (r: nat)
    requires e <= |s|
    ensures e <= r <= |s|
    decreases |s| - e
  {
    if e + 3 <= |s| && s[e..e + 3] == "../" then SkipParents(s, e + 3) else e
  }

  /**
   * A drive `X:` at `e` is upper-cased and skipped; after a `//?/` or
   * `//./` leader (`unc`) only when a `/` follows it.
   */
  function Drive(s: string, e: nat, unc: bool): (r: (string, nat))
    requires e <= |s|
    ensures |r.0| == |s| && e <= r.1 <= |s|
  {
    if IsAlpha(At(s, e)) && At(s, e + 1) == ':' then
      if At(s, e + 2) != '/' && unc then (s, e) else (s[e := ToUpper(s[e])], e + 2)
    else (s, e)
  }

  /** The leader handling for `start_at_offset == 0`: the rewritten string and `e_start`. */
  function Lead(s: string): (r: (string, nat))
    requires NoNul(s) && LeadReadsWithinString(s)
    ensures |r.0| <= |s| && r.1 <= |r.0|
  {
    if At(s, 0) == '/' && At(s, 1) == '/' then
      if StrChr(".?", At(s, 2)) && At(s, 3) == '/' then Drive(s, 4, true)
      else
        var p := ServerEnd(s, 2);
        (s, if s[p] == '/' && At(s, p + 1) != '/' then p + 1 else 1)
    else if At(s, 0) == '.' then
      if At(s, 1) == '/' then (s[2..], 0)
      else if At(s, 1) == '.' && At(s, 2) == '/' then (s, SkipParents(s, 3))
      else (s, 0)
    else if At(s, 0) == '/' then Drive(s, 1, false)
    else Drive(s, 0, false)
  }

  /** With an offset, a `/` there is skipped unless the byte before it is one too. */
  function OffsetStart(s: string, offset: nat): (r: nat)
    requires 0 < offset < |s|
    ensures offset <= r <= |s|
  {
    if s[offset] == '/' && s[offset - 1] != '/' then offset + 1 else offset
  }

  /** The string after unixification and the leader, and `e_start`, for an input that is processed. */
  function Prepared(path: string, offset: nat): (r: (string, nat))
    requires NoNul(path) && (offset == 0 || offset < |path|)
    requires offset == 0 ==> LeadReadsWithinString(MuNormalize.Unixify(path))
    ensures |r.0| <= |path| && r.1 <= |r.0|
  {
    var s1 := path[..offset] + MuNormalize.Unixify(path[offset..]);
    if offset == 0 then
      assert s1 == MuNormalize.Unixify(path);
      Lead(s1)
    else (s1, OffsetStart(s1, offset))
  }

  /** The inputs `fz_sanitize_path_ex` handles without reading past a terminator. */
  predicate Sanitizable(path: string, offset: nat) {
    NoNul(path) && (offset == 0 ==> LeadReadsWithinString(MuNormalize.Unixify(path)))
  }

  /**
   * The whole of `fz_sanitize_path_ex` on the buffer's string: `None` when
   * a segment closed by `/` needs renaming, since that branch never
   * returns.
   */
  function Sanitized(path: string, offset: nat, rules: Rules): (r: Option<string>)
    requires ValidRules(rules) && Sanitizable(path, offset)
  {
    if offset != 0 && |path| <= offset then Some(path)
    else
      var (s2, e) := Prepared(path, offset);
      match Clean(s2, SkipWhile(s2, e, '/'), "", 0, 0, rules)
      case None => None
      case Some(out) => Some(s2[..e] + out)
  }

  // ---------------------------------------------------------------------
  // What the pass guarantees.

  /** The result is never longer than the input: the buffer is rewritten in place. */
  lemma SanitizedNeverLonger(path: string, offset: nat, rules: Rules)
    requires ValidRules(rules) && Sanitizable(path, offset)
    ensures Sanitized(path, offset, rules).Some? ==> |Sanitized(path, offset, rules).value| <= |path|
  {
  }

  /** Where the segment that ends at `b` starts: one past the last `/` before `b`, or 0. */
  function SegmentStart(r: string, b: nat): (a: nat)
    requires b <= |r|
    ensures a <= b && (a == 0 || r[a - 1] == '/')
    ensures forall k :: a <= k < b ==> r[k] != '/'
    decreases b
  {
    if b == 0 then 0 else if r[b - 1] == '/' then b else SegmentStart(r, b - 1)
  }

  lemma SegmentStartUnique(r: string, b: nat, a: nat)
    requires a <= b <= |r| && (a == 0 || r[a - 1] == '/')
    requires forall k :: a <= k < b ==> r[k] != '/'
    ensures SegmentStart(r, b) == a
    decreases b
  {
    if b > a {
      SegmentStartUnique(r, b - 1, a);
    }
  }

  lemma SegmentStartOfPrefix(r: string, t: string, b: nat)
    requires b <= |r| <= |t| && r == t[..|r|]
    ensures SegmentStart(r, b) == SegmentStart(t, b)
  {
    SegmentStartUnique(t, b, SegmentStart(r, b));
  }

  /** Every segment of `r` that a `/` closes is non-empty and satisfies `ok`. */
  ghost predicate ClosedSegmentsSatisfy(r: string, ok: string -> bool) {
    forall b {:trigger SegmentStart(r, b)} :: 0 <= b < |r| && r[b] == '/' ==> SegmentStart(r, b) < b && ok(r[SegmentStart(r, b)..b])
  }

  /** A segment the pass lets through: not a reserved name and within the 255-byte limit. */
  predicate SegmentAllowed(segment: string) {
    !NeedsRenaming(segment)
  }

  /**
   * Every segment of `r` that a `/` closes is non-empty, is not a name
   * `is_reserved_filename` rejects, and fits the 255-byte limit.
   */
  ghost predicate ClosedSegmentsAllowed(r: string) {
    ClosedSegmentsSatisfy(r, SegmentAllowed)
  }

  lemma SatisfyPrefix(t: string, n: nat, ok: string -> bool)
    requires n <= |t| && ClosedSegmentsSatisfy(t, ok)
    ensures ClosedSegmentsSatisfy(t[..n], ok)
  {
    var r := t[..n];
    forall b | 0 <= b < |r| && r[b] == '/'
      ensures SegmentStart(r, b) < b && ok(r[SegmentStart(r, b)..b])
    {
      SegmentStartOfPrefix(r, t, b);
      var a := SegmentStart(r, b);
      assert r[a..b] == t[a..b];
    }
  }

  lemma SatisfyAppend(r: string, w: string, ok: string -> bool)
    requires ClosedSegmentsSatisfy(r, ok) && '/' !in w
    ensures ClosedSegmentsSatisfy(r + w, ok)
  {
    var t := r + w;
    forall b | 0 <= b < |t| && t[b] == '/'
      ensures SegmentStart(t, b) < b && ok(t[SegmentStart(t, b)..b])
    {
      assert b < |r|;
      assert t[..|r|] == r;
      SegmentStartOfPrefix(r, t, b);
      var a := SegmentStart(r, b);
      assert t[a..b] == r[a..b];
    }
  }

  lemma SatisfySeparator(r: string, seg: nat, ok: string -> bool)
    requires ClosedSegmentsSatisfy(r, ok) && seg < |r| && (seg == 0 || r[seg - 1] == '/')
    requires forall k :: seg <= k < |r| ==> r[k] != '/'
    requires ok(r[seg..])
    ensures ClosedSegmentsSatisfy(r + "/", ok)
  {
    var t := r + "/";
    assert t[..|r|] == r;
    forall b | 0 <= b < |t| && t[b] == '/'
      ensures SegmentStart(t, b) < b && ok(t[SegmentStart(t, b)..b])
    {
      if b == |r| {
        SegmentStartUnique(t, b, seg);
        assert t[seg..b] == r[seg..];
      } else {
        SegmentStartOfPrefix(r, t, b);
        var a := SegmentStart(r, b);
        assert t[a..b] == r[a..b];
      }
    }
  }

  /** The state the main loop keeps: `seg` starts the segment under way in `out`. */
  ghost predicate Segmented(s: string, i: nat, out: string, seg: nat) {
    i <= |s| && seg <= |out| && (seg == 0 || out[seg - 1] == '/')
    && (forall k :: seg <= k < |out| ==> out[k] != '/')
    && (i < |s| && s[i] == '/' ==> seg < |out|)
    && ClosedSegmentsAllowed(out)
  }

  /**
   * With no `/` among the replacements, every `/` of the region is a
   * separator the pass kept: the segments it closes are non-empty, so runs
   * of `/` collapse and the region does not start with one, and none of
   * them is reserved or over 255 bytes, since such a segment stops the pass.
   */
  lemma {:induction false} CleanSegments(s: string, i: nat, out: string, seg: nat, count: nat, rules: Rules)
    requires ValidRules(rules) && '/' !in rules.repl.single
    requires count <= |out| - seg && Segmented(s, i, out, seg)
    ensures Clean(s, i, out, seg, count, rules).Some? ==> ClosedSegmentsAllowed(Clean(s, i, out, seg, count, rules).value)
    decreases |s| - i
  {
    if i < |s| {
      var (out1, count1) := Collapse(out, seg, count);
      if s[i] == '/' {
        if !NeedsRenaming(out1[seg..]) {
          SeparatorSegmented(s, i, out, seg, count, out1);
          var out2 := out1 + "/";
          StepSeparator(s, i, out, seg, count, rules, SkipWhile(s, i + 1, '/'), out2);
          CleanSegments(s, SkipWhile(s, i + 1, '/'), out2, |out2|, 0, rules);
        }
      } else {
        var e := Rewrite(s, i, out1, seg, rules);
        RewriteSegmented(s, i, out, seg, count, out1, e, rules);
        CleanOnByte(s, i, out, seg, count, rules);
        CleanSegments(s, e.next, out1 + e.written, seg, if e.counts then count1 + 1 else 0, rules);
      }
    }
  }

  lemma SeparatorSegmented(s: string, i: nat, out: string, seg: nat, count: nat, out1: string)
    requires count <= |out| - seg && Segmented(s, i, out, seg) && i < |s| && s[i] == '/'
    requires out1 == Collapse(out, seg, count).0 && SegmentAllowed(out1[seg..])
    ensures Segmented(s, SkipWhile(s, i + 1, '/'), out1 + "/", |out1| + 1)
  {
    SatisfyPrefix(out, |out1|, SegmentAllowed);
    SatisfySeparator(out1, seg, SegmentAllowed);
  }

  lemma RewriteSegmented(s: string, i: nat, out: string, seg: nat, count: nat, out1: string, e: Emit, rules: Rules)
    requires ValidRules(rules) && '/' !in rules.repl.single
    requires count <= |out| - seg && Segmented(s, i, out, seg) && i < |s| && s[i] != '/'
    requires out1 == Collapse(out, seg, count).0 && e == Rewrite(s, i, out1, seg, rules)
    ensures Segmented(s, e.next, out1 + e.written, seg)
  {
    SatisfyPrefix(out, |out1|, SegmentAllowed);
    assert '/' !in e.written by {
      forall k | 0 <= k < |e.written| ensures e.written[k] != '/' {
        assert Emitted(e.written[k], rules);
      }
    }
    SatisfyAppend(out1, e.written, SegmentAllowed);
  }

  /** Every byte of `r` is a separator `/` or one of the bytes `Emitted` allows. */
  ghost predicate SeparatorsAndEmitted(r: string, rules: Rules) {
    forall k :: 0 <= k < |r| ==> r[k] == '/' || Emitted(r[k], rules)
  }

  lemma {:induction false} CleanCharset(s: string, i: nat, out: string, seg: nat, count: nat, rules: Rules)
    requires ValidRules(rules) && i <= |s| && seg <= |out| && count <= |out| - seg
    requires SeparatorsAndEmitted(out, rules)
    ensures Clean(s, i, out, seg, count, rules).Some? ==> SeparatorsAndEmitted(Clean(s, i, out, seg, count, rules).value, rules)
    decreases |s| - i
  {
    if i < |s| && Clean(s, i, out, seg, count, rules).Some? {
      TurnClean(s, i, out, seg, count, rules);
      var out1 := Collapse(out, seg, count).0;
      if s[i] == '/' {
        ExtendCharset(out, out1, "/", rules);
      } else {
        ExtendCharset(out, out1, Rewrite(s, i, out1, seg, rules).written, rules);
      }
      var t := Turn(s, i, out, seg, count, rules);
      CleanCharset(s, t.next, t.out, t.seg, t.count, rules);
    }
  }

  lemma ExtendCharset(out: string, out1: string, w: string, rules: Rules)
    requires |out1| <= |out| && out1 == out[..|out1|] && SeparatorsAndEmitted(out, rules)
    requires SeparatorsAndEmitted(w, rules)
    ensures SeparatorsAndEmitted(out1 + w, rules)
  {
  }

  /**
   * The result is the kept leader (the drive, the UNC leader, or the part
   * before the offset) followed by the sanitized region, whose bytes are
   * separators or bytes `Emitted` allows.
   */
  lemma SanitizedRegion(path: string, offset: nat, rules: Rules)
    requires ValidRules(rules) && Sanitizable(path, offset) && (offset == 0 || offset < |path|)
    ensures var r := Sanitized(path, offset, rules); var e := Prepared(path, offset).1;
      r.Some? ==>
        e <= |r.value| && r.value[..e] == Prepared(path, offset).0[..e]
        && SeparatorsAndEmitted(r.value[e..], rules)
  {
    var (s2, e) := Prepared(path, offset);
    var i := SkipWhile(s2, e, '/');
    CleanCharset(s2, i, "", 0, 0, rules);
    var r := Sanitized(path, offset, rules);
    if r.Some? {
      assert r.value[e..] == Clean(s2, i, "", 0, 0, rules).value;
    }
  }

  /**
   * With no `/` among the replacements, the sanitized region has no empty
   * segment (no `//`, no leading `/`) and every segment a `/` closes in it
   * is an allowed name of at most 255 bytes.
   */
  lemma SanitizedSegments(path: string, offset: nat, rules: Rules)
    requires ValidRules(rules) && Sanitizable(path, offset) && (offset == 0 || offset < |path|)
    requires '/' !in rules.repl.single
    ensures var r := Sanitized(path, offset, rules); var e := Prepared(path, offset).1;
      r.Some? ==> e <= |r.value| && ClosedSegmentsAllowed(r.value[e..])
  {
    var (s2, e) := Prepared(path, offset);
    var i := SkipWhile(s2, e, '/');
    CleanSegments(s2, i, "", 0, 0, rules);
    var r := Sanitized(path, offset, rules);
    if r.Some? {
      assert r.value[e..] == Clean(s2, i, "", 0, 0, rules).value;
    }
  }

  /** With an offset inside the path, the bytes before it are left alone. */
  lemma SanitizedKeepsPrefix(path: string, offset: nat, rules: Rules)
    requires ValidRules(rules) && Sanitizable(path, offset) && offset > 0
    ensures |path| <= offset ==> Sanitized(path, offset, rules) == Some(path)
    ensures var r := Sanitized(path, offset, rules);
      offset < |path| && r.Some? ==> offset <= |r.value| && r.value[..offset] == path[..offset]
  {
    if offset < |path| {
      var s1 := path[..offset] + MuNormalize.Unixify(path[offset..]);
      assert s1[..offset] == path[..offset];
      var (s2, e) := Prepared(path, offset);
      assert s2 == s1 && offset <= e;
      var r := Sanitized(path, offset, rules);
      if r.Some? {
        var out := Clean(s2, SkipWhile(s2, e, '/'), "", 0, 0, rules).value;
        assert r.value == s2[..e] + out;
        assert r.value[..offset] == s2[..offset];
      }
    }
  }

  /** Sanitizing the whole path leaves no backslash, unless a replacement is one. */
  lemma SanitizedNoBackslash(path: string, rules: Rules)
    requires ValidRules(rules) && Sanitizable(path, 0) && '\\' !in rules.repl.single
    ensures Sanitized(path, 0, rules).Some? ==> '\\' !in Sanitized(path, 0, rules).value
  {
    var r := Sanitized(path, 0, rules);
    if r.Some? {
      SanitizedRegion(path, 0, rules);
      PreparedNoBackslash(path);
      JoinWithout(r.value, Prepared(path, 0).0, Prepared(path, 0).1, '\\', rules);
    }
  }

  lemma PreparedNoBackslash(path: string)
    requires Sanitizable(path, 0)
    ensures '\\' !in Prepared(path, 0).0
  {
    var u := MuNormalize.Unixify(path);
    assert path[..0] + MuNormalize.Unixify(path[0..]) == u;
    LeadKeepsAbsent(u, '\\');
  }

  lemma JoinWithout(r: string, s2: string, e: nat, c: char, rules: Rules)
    requires e <= |r| && e <= |s2| && r[..e] == s2[..e] && c !in s2
    requires SeparatorsAndEmitted(r[e..], rules)
    requires c != '/' && !Emitted(c, rules)
    ensures c !in r
  {
    forall k | 0 <= k < |r| ensures r[k] != c {
      if k < e {
        assert r[k] == r[..e][k] == s2[k];
      } else {
        assert r[k] == r[e..][k - e];
      }
    }
  }

  lemma LeadKeepsAbsent(s: string, c: char)
    requires NoNul(s) && LeadReadsWithinString(s) && c !in s && !IsAlpha(c)
    ensures c !in Lead(s).0
  {
    if At(s, 0) == '.' && At(s, 1) == '/' {
      assert forall k :: 0 <= k < |s| - 2 ==> s[2..][k] == s[k + 2];
    }
  }

  // ---------------------------------------------------------------------
  // The rules for one byte.

  /** A byte that neither the caller's set nor a format specifier claims, below 0x80. */
  predicate FixedRuleByte(c: char, rules: Rules) {
    c as int <= 0x7F && !(rules.repl.formatIndex > 0 && c == '%') && c !in rules.repl.chars
  }

  /** With `f` in the set, a whole `%` format specifier becomes the replacement for `f`. */
  lemma FormatSpecifierRule(s: string, i: nat, out: string, seg: nat, rules: Rules)
    requires ValidRules(rules) && i < |s| && s[i] != '/' && seg <= |out|
    requires rules.repl.formatIndex > 0 && s[i] == '%'
    ensures Rewrite(s, i, out, seg, rules) == Replaced(rules.repl.single[rules.repl.formatIndex - 1], SkipFormat(s, i + 1))
  {
  }

  /**
   * A byte of the set becomes the map entry at its index (the last entry
   * when the map is shorter), and a run of `#` becomes one entry.
   */
  lemma SetRule(s: string, i: nat, out: string, seg: nat, rules: Rules)
    requires ValidRules(rules) && i < |s| && s[i] != '/' && seg <= |out|
    requires !(rules.repl.formatIndex > 0 && s[i] == '%') && s[i] in rules.repl.chars
    ensures var e := Rewrite(s, i, out, seg, rules);
      e.counts && e.written == [MapEntry(rules.repl.single, FirstIndex(rules.repl.chars, s[i]).value)]
      && e.next == (if s[i] == '#' then SkipWhile(s, i + 1, '#') else i + 1)
  {
  }

  /** Control bytes, DEL and `` `"*@=|;?: `` become one `_`. */
  lemma ReplacedRule(s: string, i: nat, out: string, seg: nat, rules: Rules)
    requires ValidRules(rules) && i < |s| && s[i] != '/' && seg <= |out| && FixedRuleByte(s[i], rules)
    requires s[i] < ' ' || s[i] as int == 0x7F || Banned(s[i])
    ensures Rewrite(s, i, out, seg, rules) == Replaced('_', i + 1)
  {
  }

  /** `{ [ <` become `(`, and `} ] >` become `)`. */
  lemma BraceRule(s: string, i: nat, out: string, seg: nat, rules: Rules)
    requires ValidRules(rules) && i < |s| && s[i] != '/' && seg <= |out| && FixedRuleByte(s[i], rules)
    requires Brace(s[i])
    ensures Rewrite(s, i, out, seg, rules) == Replaced(BraceReplacement(s[i]), i + 1)
  {
  }

  /** Letters, digits and `_ ( )` are copied. */
  lemma KeptRule(s: string, i: nat, out: string, seg: nat, rules: Rules)
    requires ValidRules(rules) && i < |s| && s[i] != '/' && seg <= |out| && FixedRuleByte(s[i], rules)
    requires IsAlnum(s[i]) || s[i] == '_' || s[i] == '(' || s[i] == ')'
    ensures Rewrite(s, i, out, seg, rules) == Kept(s[i], i + 1)
  {
  }

  /** A `.` is copied unless the end, a `.` or a `/` follows it. */
  lemma DotRule(s: string, i: nat, out: string, seg: nat, rules: Rules)
    requires ValidRules(rules) && NoNul(s) && i < |s| && seg <= |out| && FixedRuleByte(s[i], rules)
    requires s[i] == '.'
    ensures var e := Rewrite(s, i, out, seg, rules);
      e.next == i + 1 && (e == Kept('.', i + 1) <==> i + 1 < |s| && s[i + 1] != '.' && s[i + 1] != '/')
      && (e != Kept('.', i + 1) ==> e == Replaced('_', i + 1))
  {
  }

  /**
   * A `$` is copied only inside a name: not at the end, not before a
   * `/`, not first in the region, and not after a `:` or a `/`.
   */
  lemma DollarRule(s: string, i: nat, out: string, seg: nat, rules: Rules)
    requires ValidRules(rules) && NoNul(s) && i < |s| && seg <= |out| && FixedRuleByte(s[i], rules)
    requires s[i] == '$'
    ensures var e := Rewrite(s, i, out, seg, rules);
      e.next == i + 1
      && (e == Kept('$', i + 1) <==>
            i + 1 < |s| && s[i + 1] != '/' && |out| > 0 && out[|out| - 1] != ':' && out[|out| - 1] != '/')
      && (e != Kept('$', i + 1) ==> e == Replaced('_', i + 1))
  {
  }

  /** A `-` is copied only inside a name: not first in its segment, not at the end, not before a `/`. */
  lemma DashRule(s: string, i: nat, out: string, seg: nat, rules: Rules)
    requires ValidRules(rules) && NoNul(s) && i < |s| && seg <= |out| && FixedRuleByte(s[i], rules)
    requires s[i] == '-'
    ensures var e := Rewrite(s, i, out, seg, rules);
      e.next == i + 1 && (e == Kept('-', i + 1) <==> i + 1 < |s| && s[i + 1] != '/' && |out| > seg)
      && (e != Kept('-', i + 1) ==> e == Replaced('_', i + 1))
  {
  }

  /** Every other ASCII byte, `\\`, space, `!`, `~`, `'`, `+` among them, becomes `_`. */
  lemma OtherAsciiRule(s: string, i: nat, out: string, seg: nat, rules: Rules)
    requires ValidRules(rules) && i < |s| && s[i] != '/' && seg <= |out| && FixedRuleByte(s[i], rules)
    requires !IsAlnum(s[i]) && s[i] !in "_().$-" && !Brace(s[i])
    ensures Rewrite(s, i, out, seg, rules) == Replaced('_', i + 1)
  {
  }

  // ---------------------------------------------------------------------
  // Examples.

  /** The rules with no caller set: the fixed rules alone. */
  ghost predicate DefaultRules(rules: Rules) {
    ValidRules(rules) && rules.repl == Replacement("", "_", 0)
  }

  /** Without a set or a replacement string, only `_` replaces. */
  lemma DefaultReplacement()
    ensures MakeReplacement(None, None) == Replacement("", "_", 0)
  {
  }

  /** One turn of the loop on a byte that is not `/`, from read offset `i` to `i2`. */
  lemma StepRewrite(s: string, i: nat, out: string, seg: nat, count: nat, rules: Rules, i2: nat, out2: string, count2: nat)
    requires ValidRules(rules) && i < |s| && s[i] != '/' && seg <= |out| && count <= |out| - seg
    requires var c := Collapse(out, seg, count); var e := Rewrite(s, i, c.0, seg, rules);
      i2 == e.next && out2 == c.0 + e.written && count2 == (if e.counts then c.1 + 1 else 0)
    ensures seg <= |out2| && count2 <= |out2| - seg && i2 <= |s|
    ensures Clean(s, i, out, seg, count, rules) == Clean(s, i2, out2, seg, count2, rules)
  {
    CleanOnByte(s, i, out, seg, count, rules);
  }

  /** `Clean` unfolded once on a byte that is not `/`. */
  lemma CleanOnByte(s: string, i: nat, out: string, seg: nat, count: nat, rules: Rules)
    requires ValidRules(rules) && i < |s| && s[i] != '/' && seg <= |out| && count <= |out| - seg
    ensures var c := Collapse(out, seg, count); var e := Rewrite(s, i, c.0, seg, rules);
      Clean(s, i, out, seg, count, rules) == Clean(s, e.next, c.0 + e.written, seg, if e.counts then c.1 + 1 else 0, rules)
  {
  }

  /** One turn of the loop on a `/` that closes an allowed segment. */
  lemma StepSeparator(s: string, i: nat, out: string, seg: nat, count: nat, rules: Rules, i2: nat, out2: string)
    requires ValidRules(rules) && i < |s| && s[i] == '/' && seg <= |out| && count <= |out| - seg
    requires var out1 := Collapse(out, seg, count).0;
      !NeedsRenaming(out1[seg..]) && out2 == out1 + "/" && i2 == SkipWhile(s, i + 1, '/')
    ensures i2 <= |s| && Clean(s, i, out, seg, count, rules) == Clean(s, i2, out2, |out2|, 0, rules)
  {
  }

  /** A run of replacements collapses to one once a kept byte follows it. */
  lemma ExampleReplacementRun(s: string, rules: Rules)
    requires s == "??b" && DefaultRules(rules)
    ensures Sanitizable(s, 0) && Sanitized(s, 0, rules) == Some("_b")
  {
    assert Lead(s) == (s, 0);
    ReplacementRunHead(s, rules);
    ReplacementRunTail(s, rules);
    SanitizedFromStart(s, rules);
  }

  lemma ReplacementRunTail(s: string, rules: Rules)
    requires s == "??b" && DefaultRules(rules)
    ensures Clean(s, 2, "__", 0, 2, rules) == Some("_b")
  {
    assert Collapse("__", 0, 2) == ("_", 1) by {
      assert "__"[..1] == "_";
    }
    KeptRule(s, 2, "_", 0, rules);
    StepRewrite(s, 2, "__", 0, 2, rules, 3, "_b", 0);
  }

  lemma ReplacementRunHead(s: string, rules: Rules)
    requires s == "??b" && DefaultRules(rules)
    ensures Clean(s, 0, "", 0, 0, rules) == Clean(s, 2, "__", 0, 2, rules)
  {
    ReplacedRule(s, 0, "", 0, rules);
    ReplacedRule(s, 1, "_", 0, rules);
    StepRewrite(s, 0, "", 0, 0, rules, 1, "_", 1);
    StepRewrite(s, 1, "_", 0, 1, rules, 2, "__", 2);
  }

  /** A path with no leader and no `\\`, sanitized from its first byte. */
  lemma SanitizedFromStart(s: string, rules: Rules)
    requires ValidRules(rules) && NoNul(s) && '\\' !in s && (|s| == 0 || s[0] != '/')
    requires Lead(s) == (s, 0)
    ensures Sanitizable(s, 0) && Sanitized(s, 0, rules) == Clean(s, 0, "", 0, 0, rules)
  {
    UnixifyKeeps(s);
    assert s[..0] + MuNormalize.Unixify(s[0..]) == s;
    assert Prepared(s, 0) == (s, 0);
    assert SkipWhile(s, 0, '/') == 0;
    var c := Clean(s, 0, "", 0, 0, rules);
    if c.Some? {
      assert s[..0] + c.value == c.value;
    }
  }

  /** A trailing run is not collapsed: the collapse waits for the next byte. */
  lemma ExampleTrailingRun(s: string, rules: Rules)
    requires s == "??" && DefaultRules(rules)
    ensures Sanitizable(s, 0) && Sanitized(s, 0, rules) == Some("__")
  {
    assert Lead(s) == (s, 0);
    assert Collapse("", 0, 0) == ("", 0) && Collapse("_", 0, 1) == ("_", 1);
    ReplacedRule(s, 0, "", 0, rules);
    ReplacedRule(s, 1, "_", 0, rules);
    StepRewrite(s, 0, "", 0, 0, rules, 1, "_", 1);
    StepRewrite(s, 1, "_", 0, 1, rules, 2, "__", 2);
    assert Clean(s, 2, "__", 0, 2, rules) == Some("__");
    SanitizedFromStart(s, rules);
  }

  /** A path that starts with the `//?/` leader: the drive test follows it. */
  lemma LeadLiteralPrefix(s: string)
    requires NoNul(s) && '\\' !in s && 4 <= |s| && s[0] == '/' && s[1] == '/' && s[2] == '?' && s[3] == '/'
    ensures Sanitizable(s, 0) && Prepared(s, 0) == Drive(s, 4, true)
  {
    UnixifyKeeps(s);
    assert s[..0] + MuNormalize.Unixify(s[0..]) == s;
    assert !ServerStart(s) && |s| != 2;
    assert StrChr(".?", '?') by {
      assert ".?"[1] == '?';
    }
  }

  /** The leader `//?/` and the drive `C:` of `//?/C:/x`, which a `/` follows. */
  lemma PreparedUncDriveSlash(s: string)
    requires s == "//?/C:/x"
    ensures Sanitizable(s, 0) && Prepared(s, 0) == (s, 6)
  {
    LeadLiteralPrefix(s);
    assert IsAlpha(s[4]) && s[5] == ':' && s[6] == '/';
    assert ToUpper('C') == 'C' && s[4 := 'C'] == s;
  }

  /** The leader `//?/` of `//?/C:x`, with no drive after it. */
  lemma PreparedUncDriveNoSlash(s: string)
    requires s == "//?/C:x"
    ensures Sanitizable(s, 0) && Prepared(s, 0) == (s, 4)
  {
    LeadLiteralPrefix(s);
    assert IsAlpha(s[4]) && s[5] == ':' && s[6] == 'x';
  }

  /**
   * `//?/C:/x => //?/C:x`: the drive after the `//?/` leader is kept with
   * the `/` after it, and the skip of leading `/` then drops that `/`.
   */
  lemma ExampleUncDriveFirstPass(s: string, rules: Rules)
    requires s == "//?/C:/x" && DefaultRules(rules)
    ensures Sanitizable(s, 0) && Sanitized(s, 0, rules) == Some("//?/C:x")
  {
    PreparedUncDriveSlash(s);
    assert SkipWhile(s, 6, '/') == 7;
    KeptRule(s, 7, "", 0, rules);
    StepRewrite(s, 7, "", 0, 0, rules, 8, "x", 0);
    SanitizedFromPrepared(s, 6, "x", rules);
    JoinedLeader(s, 6, "x", "//?/C:x");
  }

  lemma JoinedLeader(s: string, e: nat, out: string, r: string)
    requires e <= |s| && |r| == e + |out| && s[..e] == r[..e] && out == r[e..]
    ensures s[..e] + out == r
  {
  }

  /** The whole pass from offset 0, once the leader and the loop are known. */
  lemma SanitizedFromPrepared(s: string, e: nat, out: string, rules: Rules)
    requires ValidRules(rules) && Sanitizable(s, 0) && e <= |s| && Prepared(s, 0) == (s, e)
    requires Clean(s, SkipWhile(s, e, '/'), "", 0, 0, rules) == Some(out)
    ensures Sanitized(s, 0, rules) == Some(s[..e] + out)
  {
  }

  /**
   * `//?/C:x => //?/C_x`: a drive after a `//?/` leader without a `/`
   * after it is not kept, and its `:` is banned.
   */
  lemma ExampleUncDriveSecondPass(s: string, rules: Rules)
    requires s == "//?/C:x" && DefaultRules(rules)
    ensures Sanitizable(s, 0) && Sanitized(s, 0, rules) == Some("//?/C_x")
  {
    PreparedUncDriveNoSlash(s);
    UncDriveNoSlashClean(s, rules);
    SanitizedFromPrepared(s, 4, "C_x", rules);
    JoinedLeader(s, 4, "C_x", "//?/C_x");
  }

  lemma UncDriveNoSlashClean(s: string, rules: Rules)
    requires s == "//?/C:x" && DefaultRules(rules)
    ensures SkipWhile(s, 4, '/') == 4 && Clean(s, 4, "", 0, 0, rules) == Some("C_x")
  {
    KeptRule(s, 4, "", 0, rules);
    StepRewrite(s, 4, "", 0, 0, rules, 5, "C", 0);
    ReplacedRule(s, 5, "C", 0, rules);
    StepRewrite(s, 5, "C", 0, 0, rules, 6, "C_", 1);
    KeptRule(s, 6, "C_", 0, rules);
    StepRewrite(s, 6, "C_", 0, 1, rules, 7, "C_x", 0);
  }

  /** The pass is not idempotent: a second pass over `//?/C:/x` changes the result of the first. */
  lemma SanitizedTwiceDiffers(rules: Rules)
    requires DefaultRules(rules)
    ensures Sanitizable("//?/C:/x", 0) && Sanitized("//?/C:/x", 0, rules).Some?
    ensures var r := Sanitized("//?/C:/x", 0, rules).value;
      Sanitizable(r, 0) && Sanitized(r, 0, rules) != Some(r)
  {
    ExampleUncDriveFirstPass("//?/C:/x", rules);
    ExampleUncDriveSecondPass("//?/C:x", rules);
  }

  lemma UnixifyKeeps(s: string)
    requires '\\' !in s
    ensures MuNormalize.Unixify(s) == s
  {
  }

  // ---------------------------------------------------------------------
  // The pass on the buffer.

  /**
   * From `j` on, the buffer holds the bytes of `s` and then its
   * terminator: the part of the string the pass has not read yet.
   */
  ghost predicate Unread(a: array<char>, s: string, j: nat)
    reads a
  {
    |s| < a.Length && a[|s|] == NUL && forall k :: j <= k < |s| ==> a[k] == s[k]
  }

  /** Past the run of `c`, on the buffer. */
  method SkipRunIn(a: array<char>, j: nat, c: char, ghost s: string) returns (r: nat)
    requires Unread(a, s, j) && j <= |s| && c != NUL
    ensures r == SkipWhile(s, j, c)
  {
    r := j;
    while a[r] == c
      invariant j <= r <= |s|
      invariant SkipWhile(s, r, c) == SkipWhile(s, j, c)
      decreases |s| - r
    {
      r := r + 1;
    }
  }

  /** Past a `printf` specifier: its flags and width, a length modifier, a conversion. */
  method SkipFormatIn(a: array<char>, j: nat, ghost s: string) returns (r: nat)
    requires Unread(a, s, j) && j <= |s|
    ensures r == SkipFormat(s, j)
  {
    r := j;
    while a[r] != NUL && FormatFlag(a[r])
      invariant j <= r <= |s|
      invariant SkipFormat(s, r) == SkipFormat(s, j)
      decreases |s| - r
    {
      r := r + 1;
    }
    if a[r] != NUL && LengthModifier(a[r]) {
      r := r + 1;
    }
    if a[r] != NUL && Conversion(a[r]) {
      r := r + 1;
    }
  }

  /**
   * The rules for a byte that is not `/` and is not copied as a UTF-8
   * sequence: the one byte written for it, where reading goes on, and
   * whether it was a replacement. `a[e..d]` is what was written so far and
   * `seg` is where the segment started.
   */
  method ByteRuleIn(a: array<char>, i: nat, d: nat, e: nat, seg: nat, rules: Rules, ghost s: string)
    returns (next: nat, w: char, counts: bool)
    requires ValidRules(rules) && Unread(a, s, i) && e <= seg <= d <= i < |s| && s[i] != '/'
    requires !(s[i] as int > 0x7F && !(rules.repl.formatIndex > 0 && s[i] == '%') && s[i] !in rules.repl.chars)
    ensures Rewrite(s, i, a[e..d], seg - e, rules) == Emit([w], next, counts)
  {
    var c := a[i];
    var repl := rules.repl;
    if repl.formatIndex > 0 && c == '%' {
      next := SkipFormatIn(a, i + 1, s);
      w, counts := repl.single[repl.formatIndex - 1], true;
    } else if c in repl.chars {
      next := i + 1;
      if c == '#' {
        next := SkipRunIn(a, i + 1, '#', s);
      }
      w, counts := MapEntry(repl.single, FirstIndex(repl.chars, c).value), true;
    } else {
      next, w, counts := AsciiRuleIn(a, i, d, e, seg, rules, s);
    }
  }

  /** The fixed rules, for a byte below 0x80 that the caller's set does not name. */
  method AsciiRuleIn(a: array<char>, i: nat, d: nat, e: nat, seg: nat, rules: Rules, ghost s: string)
    returns (next: nat, w: char, counts: bool)
    requires ValidRules(rules) && Unread(a, s, i) && e <= seg <= d <= i < |s| && s[i] != '/'
    requires s[i] as int <= 0x7F && !(rules.repl.formatIndex > 0 && s[i] == '%') && s[i] !in rules.repl.chars
    ensures Rewrite(s, i, a[e..d], seg - e, rules) == Emit([w], next, counts)
  {
    ghost var out := a[e..d];
    var c := a[i];
    assert At(s, i + 1) == a[i + 1];
    assert d > e ==> out[|out| - 1] == a[d - 1];
    w := if c < ' ' || c as int == 0x7F then '_'
      else if Banned(c) then '_'
      else if Brace(c) then BraceReplacement(c)
      else if c == '.' then (if a[i + 1] == NUL || a[i + 1] == '.' || a[i + 1] == '/' then '_' else '.')
      else if c == '$' then
        (if a[i + 1] == NUL || a[i + 1] == '/' then '_'
         else if d == e || a[d - 1] == ':' || a[d - 1] == '/' then '_'
         else '$')
      else if IsAlnum(c) then c
      else if c == '-' then
        (if a[i + 1] == NUL || a[i + 1] == '/' then '_'
         else if d == seg then '_'
         else '-')
      else if c == '_' || c == '(' || c == ')' then c
      else '_';
    next, counts := i + 1, w != c;
  }

  /** `*d++ = w` behind the read offset `j`: appends `w` to the `out` that ends at `d`. */
  method PutIn(a: array<char>, e: nat, d: nat, w: char, ghost s: string, ghost out: string, ghost j: nat)
    requires Unread(a, s, j) && e <= d < j <= |s| && a[e..d] == out
    modifies a
    ensures a[..e] == old(a[..e]) && a[e..d + 1] == out + [w] && Unread(a, s, j)
  {
    a[d] := w;
    assert a[e..d + 1] == a[e..d] + [a[d]];
  }

  /** `memmove(d, p, l)`: the `l` bytes read at `i` appended to the `out` that ends at `d`. */
  method CopyIn(a: array<char>, e: nat, d: nat, i: nat, l: nat, ghost s: string, ghost out: string)
    requires Unread(a, s, i) && e <= d <= i && i + l <= |s| && a[e..d] == out
    modifies a
    ensures a[..e] == old(a[..e]) && a[e..d + l] == out + s[i..i + l] && Unread(a, s, i + l)
  {
    assert a[i..i + l] == s[i..i + l];
    MemMoveDown(a, d, i, l);
    assert a[e..d + l] == a[..][e..d] + a[..][d..d + l];
  }

  /**
   * A byte above 0x7F that the caller's set does not name: the decoded
   * code point's sequence is copied down when it is legal, and replaced
   * otherwise.
   */
  method SequenceIn(a: array<char>, i: nat, d: nat, e: nat, rules: Rules, len: nat, ghost s: string, ghost out: string)
    returns (next: nat, n: nat, counts: bool)
    requires ValidRules(rules) && Unread(a, s, i) && len == |s| && e <= d <= i < |s| && s[i] as int > 0x7F
    requires a[e..d] == out
    modifies a
    ensures var em := Sequence(s, i, rules);
      next == em.next && n == |em.written| && counts == em.counts && d + n <= next
      && a[e..d + n] == out + em.written
    ensures Unread(a, s, next) && a[..e] == old(a[..e])
  {
    var (u, l) := rules.decode(a[i..len]);
    assert a[i..len] == s[i..];
    ghost var em := Sequence(s, i, rules);
    if u == RuneError {
      assert em.written == "_";
      PutIn(a, e, d, '_', s, out, i + 1);
      next, n, counts := i + 1, 1, true;
    } else if u <= 65535 && rules.legal(u) {
      assert em.written == s[i..i + l];
      CopyIn(a, e, d, i, l, s, out);
      next, n, counts := i + l, l, false;
    } else {
      assert em.written == "_";
      PutIn(a, e, d, '_', s, out, i + l);
      next, n, counts := i + l, 1, true;
    }
  }

  /**
   * One byte that is not `/`, or one UTF-8 sequence, read at `i` and
   * written at `d <= i`: the bytes the rules write for it land at `d`.
   */
  method RewriteIn(a: array<char>, i: nat, d: nat, e: nat, seg: nat, rules: Rules, len: nat, ghost s: string, ghost out: string)
    returns (next: nat, n: nat, counts: bool)
    requires ValidRules(rules) && Unread(a, s, i) && len == |s| && e <= seg <= d <= i < |s| && s[i] != '/'
    requires a[e..d] == out
    modifies a
    ensures var em := Rewrite(s, i, out, seg - e, rules);
      next == em.next && n == |em.written| && counts == em.counts && d + n <= next
      && a[e..d + n] == out + em.written
    ensures Unread(a, s, next) && a[..e] == old(a[..e])
  {
    var c := a[i];
    if c as int > 0x7F && !(rules.repl.formatIndex > 0 && c == '%') && c !in rules.repl.chars {
      next, n, counts := SequenceIn(a, i, d, e, rules, len, s, out);
    } else {
      var w;
      next, w, counts := ByteRuleIn(a, i, d, e, seg, rules, s);
      PutIn(a, e, d, w, s, out, next);
      n := 1;
    }
  }

  /**
   * The collapse loop at the top of each turn, while more than one
   * replacement is pending, on the first `n` bytes of `out`: the write
   * offset backs up over a run of equal replacement bytes. The result is
   * the length it keeps and the count it leaves.
   */
  function CollapseAt(out: string, seg: nat, n: nat, count: nat): (r: (nat, nat))
    requires seg <= n <= |out| && count <= n - seg
    decreases count
  {
    if count > 1 && out[n - 1] == out[n - 2] then CollapseAt(out, seg, n - 1, count - 1) else (n, count)
  }

  lemma {:induction false} CollapseIsAt(out: string, seg: nat, n: nat, count: nat)
    requires seg <= n <= |out| && count <= n - seg
    ensures var r := CollapseAt(out, seg, n, count); r.0 <= n && Collapse(out[..n], seg, count) == (out[..r.0], r.1)
    decreases count
  {
    if count > 1 && out[n - 1] == out[n - 2] {
      assert out[..n][..n - 1] == out[..n - 1];
      CollapseIsAt(out, seg, n - 1, count - 1);
    }
  }

  /** Where the index-based collapse stops, `Collapse` has kept that many bytes. */
  lemma CollapseStops(out: string, seg: nat, n: nat, count: nat, count0: nat)
    requires seg <= n <= |out| && count <= n - seg && count0 <= |out| - seg
    requires CollapseAt(out, seg, n, count) == CollapseAt(out, seg, |out|, count0)
    requires !(count > 1 && out[n - 1] == out[n - 2])
    ensures Collapse(out, seg, count0) == (out[..n], count)
  {
    CollapseIsAt(out, seg, |out|, count0);
    assert out[..|out|] == out;
  }

  method CollapseIn(a: array<char>, e: nat, seg: nat, d0: nat, count0: nat, ghost out0: string) returns (d: nat, count: nat)
    requires e <= seg <= d0 <= a.Length && count0 <= d0 - seg && a[e..d0] == out0
    ensures seg <= d <= d0 && (a[e..d], count) == Collapse(out0, seg - e, count0)
  {
    d, count := d0, count0;
    ghost var start, n := seg - e, d0 - e;
    ghost var target := CollapseAt(out0, start, n, count0);
    while count > 1 && a[d - 1] == a[d - 2]
      invariant seg <= d <= d0 && count <= d - seg && n == d - e
      invariant CollapseAt(out0, start, n, count) == target
      decreases count
    {
      assert a[d - 1] == out0[n - 1] && a[d - 2] == out0[n - 2];
      d, count, n := d - 1, count - 1, n - 1;
    }
    assert !(count > 1 && out0[n - 1] == out0[n - 2]) by {
      if count > 1 {
        assert a[d - 1] == out0[n - 1] && a[d - 2] == out0[n - 2];
      }
    }
    CollapseStops(out0, start, n, count, count0);
    assert a[e..d] == a[e..d0][..n];
  }

  /** The separator written at `d`, and the run of further slashes skipped. */
  method SeparatorIn(a: array<char>, e: nat, d: nat, p0: nat, ghost s: string, ghost out: string) returns (p: nat)
    requires Unread(a, s, p0) && e <= d <= p0 < |s| && s[p0] == '/' && a[e..d] == out
    modifies a
    ensures a[..e] == old(a[..e]) && a[e..d + 1] == out + "/" && Unread(a, s, p)
    ensures p == SkipWhile(s, p0 + 1, '/')
  {
    PutIn(a, e, d, '/', s, out, p0 + 1);
    p := SkipRunIn(a, p0 + 1, '/', s);
  }

  lemma PrefixSplit(x: string, e: nat, d: nat)
    requires e <= d <= |x|
    ensures x[..d] == x[..e] + x[e..d]
  {
  }

  /** `*d = 0`: the terminator after the result. */
  method Terminate(a: array<char>, d: nat)
    requires d < a.Length
    modifies a
    ensures a[..d] == old(a[..d]) && a[d] == NUL
  {
    a[d] := NUL;
  }

  /** A turn on a `/` that closes a segment needing renaming does not return. */
  lemma StepRenaming(s: string, i: nat, out: string, seg: nat, count: nat, rules: Rules)
    requires ValidRules(rules) && i < |s| && s[i] == '/' && seg <= |out| && count <= |out| - seg
    requires NeedsRenaming(Collapse(out, seg, count).0[seg..])
    ensures Clean(s, i, out, seg, count, rules) == None
  {
  }

  /**
   * One turn of the loop on a `/`: collapse the run that ends the segment,
   * check the segment, write `/` and skip the run of `/` that follows.
   */
  method SeparatorTurnIn(a: array<char>, e: nat, seg: nat, d: nat, p: nat, count: nat,
                         ghost s: string, ghost out: string, ghost start: nat)
    returns (p2: nat, d2: nat, ghost out2: string)
    requires Unread(a, s, p) && e <= seg <= d <= p < |s| && s[p] == '/'
    requires count <= d - seg && a[e..d] == out && |out| == d - e && start == seg - e
    requires !NeedsRenaming(Collapse(out, start, count).0[start..])
    modifies a
    ensures e < d2 <= p2 <= |s| && p < p2 && |out2| == d2 - e
    ensures Unread(a, s, p2) && a[..e] == old(a[..e]) && a[e..d2] == out2
    ensures out2 == Collapse(out, start, count).0 + "/" && p2 == SkipWhile(s, p + 1, '/')
  {
    ghost var out1 := Collapse(out, start, count).0;
    var d1, count1 := CollapseIn(a, e, seg, d, count, out);
    assert a[e..d1] == out1;
    p2 := CloseSegmentIn(a, e, seg, d1, p, s, out1, start);
    d2, out2 := d1 + 1, out1 + "/";
  }

  /** The test of the closed segment, then the `/` written and the run of `/` skipped. */
  method CloseSegmentIn(a: array<char>, e: nat, seg: nat, d1: nat, p: nat, ghost s: string, ghost out1: string, ghost start: nat)
    returns (p2: nat)
    requires Unread(a, s, p) && e <= seg <= d1 <= p < |s| && s[p] == '/'
    requires a[e..d1] == out1 && start == seg - e && !NeedsRenaming(out1[start..])
    modifies a
    ensures a[..e] == old(a[..e]) && a[e..d1 + 1] == out1 + "/" && Unread(a, s, p2)
    ensures p2 == SkipWhile(s, p + 1, '/')
  {
    ClosedSegmentInBuffer(a[..], e, seg, d1, out1, start);
    if MuReserved.IsReservedFilename(a[seg..d1]) || d1 - seg > MaxSegmentLength {
      assert false;
    }
    p2 := SeparatorIn(a, e, d1, p, s, out1);
  }

  /** The segment the buffer holds between `seg` and `d1` is the one the value model closes. */
  lemma ClosedSegmentInBuffer(buf: seq<char>, e: nat, seg: nat, d1: nat, out1: string, start: nat)
    requires e <= seg <= d1 <= |buf| && start == seg - e && buf[e..d1] == out1
    requires !NeedsRenaming(out1[start..])
    ensures !MuReserved.IsReservedFilename(buf[seg..d1]) && d1 - seg <= MaxSegmentLength
  {
    assert out1[start..] == buf[seg..d1];
  }

  /** One turn of the loop on any other byte: collapse, then rewrite one unit. */
  method RewriteTurnIn(a: array<char>, e: nat, seg: nat, d: nat, p: nat, count: nat, rules: Rules, len: nat,
                       ghost s: string, ghost out: string, ghost start: nat)
    returns (p2: nat, d2: nat, count2: nat, ghost out2: string)
    requires ValidRules(rules) && Unread(a, s, p) && len == |s| && e <= seg <= d <= p < |s| && s[p] != '/'
    requires count <= d - seg && a[e..d] == out && |out| == d - e && start == seg - e
    modifies a
    ensures seg <= d2 <= p2 <= |s| && p < p2 && count2 <= d2 - seg && |out2| == d2 - e
    ensures Unread(a, s, p2) && a[..e] == old(a[..e]) && a[e..d2] == out2
    ensures var c := Collapse(out, start, count); var em := Rewrite(s, p, c.0, start, rules);
      p2 == em.next && out2 == c.0 + em.written && count2 == (if em.counts then c.1 + 1 else 0)
  {
    ghost var c := Collapse(out, start, count);
    var d1, count1 := CollapseIn(a, e, seg, d, count, out);
    ghost var out1 := c.0;
    assert Collapse(out, seg - e, count) == c;
    ghost var em := Rewrite(s, p, out1, start, rules);
    var n, counts;
    p2, n, counts := RewriteIn(a, p, d1, e, seg, rules, len, s, out1);
    assert Rewrite(s, p, out1, seg - e, rules) == em;
    assert a[e..d1 + n] == out1 + em.written;
    d2, out2 := d1 + n, out1 + em.written;
    count2 := if counts then count1 + 1 else 0;
  }

  /** Where one turn of the loop leaves the pass: read offset, output, segment start and count. */
  datatype Turned = Turned(next: nat, out: string, seg: nat, count: nat)

  /** One turn of the loop at read offset `i`, on a segment that needs no renaming. */
  ghost function Turn(s: string, i: nat, out: string, seg: nat, count: nat, rules: Rules): Turned
    requires ValidRules(rules) && i < |s| && seg <= |out| && count <= |out| - seg
  {
    var (out1, count1) := Collapse(out, seg, count);
    if s[i] == '/' then Turned(SkipWhile(s, i + 1, '/'), out1 + "/", |out1 + "/"|, 0)
    else
      var em := Rewrite(s, i, out1, seg, rules);
      Turned(em.next, out1 + em.written, seg, if em.counts then count1 + 1 else 0)
  }

  /** A turn of a pass that succeeds moves on, and the pass goes on to the same result. */
  lemma TurnClean(s: string, i: nat, out: string, seg: nat, count: nat, rules: Rules)
    requires ValidRules(rules) && i < |s| && seg <= |out| && count <= |out| - seg
    requires Clean(s, i, out, seg, count, rules).Some?
    ensures s[i] == '/' ==> !NeedsRenaming(Collapse(out, seg, count).0[seg..])
    ensures var t := Turn(s, i, out, seg, count, rules);
      i < t.next <= |s| && t.seg <= |t.out| && t.count <= |t.out| - t.seg
      && Clean(s, t.next, t.out, t.seg, t.count, rules) == Clean(s, i, out, seg, count, rules)
  {
    var (out1, count1) := Collapse(out, seg, count);
    if s[i] == '/' {
      if NeedsRenaming(out1[seg..]) {
        StepRenaming(s, i, out, seg, count, rules);
      }
      StepSeparator(s, i, out, seg, count, rules, SkipWhile(s, i + 1, '/'), out1 + "/");
    } else {
      var em := Rewrite(s, i, out1, seg, rules);
      StepRewrite(s, i, out, seg, count, rules, em.next, out1 + em.written, if em.counts then count1 + 1 else 0);
    }
  }

  /** One turn of the loop on the buffer. */
  method TurnIn(a: array<char>, e: nat, seg: nat, d: nat, p: nat, count: nat, rules: Rules, len: nat,
                ghost s: string, ghost out: string, ghost start: nat)
    returns (p2: nat, d2: nat, seg2: nat, count2: nat, ghost out2: string, ghost start2: nat)
    requires ValidRules(rules) && Unread(a, s, p) && len == |s| && e <= seg <= d <= p < |s|
    requires count <= d - seg && a[e..d] == out && |out| == d - e && start == seg - e
    requires s[p] == '/' ==> !NeedsRenaming(Collapse(out, start, count).0[start..])
    modifies a
    ensures e <= seg2 <= d2 <= p2 <= |s| && count2 <= d2 - seg2 && |out2| == d2 - e && start2 == seg2 - e
    ensures Unread(a, s, p2) && a[..e] == old(a[..e]) && a[e..d2] == out2
    ensures Turn(s, p, out, start, count, rules) == Turned(p2, out2, start2, count2)
  {
    if a[p] == '/' {
      p2, d2, out2 := SeparatorTurnIn(a, e, seg, d, p, count, s, out, start);
      seg2, count2, start2 := d2, 0, |out2|;
    } else {
      p2, d2, count2, out2 := RewriteTurnIn(a, e, seg, d, p, count, rules, len, s, out, start);
      seg2, start2 := seg, start;
    }
  }

  /**
   * The main loop, up to the terminator: the bytes from `i0` on are read at `p` and
   * rewritten at `d`, starting at the region start `e`. A segment that
   * would need renaming cannot occur, since the caller's input is one
   * that `Clean` accepts.
   */
  method CleanIn(a: array<char>, e: nat, i0: nat, rules: Rules, len0: nat) returns (d: nat)
    requires ValidRules(rules) && MuNormalize.Holds(a, len0) && e <= i0 <= len0
    requires Clean(a[..len0], i0, "", 0, 0, rules).Some?
    modifies a
    ensures e <= d < a.Length
    ensures a[..d] == old(a[..e]) + Clean(old(a[..len0]), i0, "", 0, 0, rules).value
    ensures a[d] == NUL
  {
    ghost var s2 := a[..len0];
    ghost var pre := a[..e];
    ghost var target := Clean(s2, i0, "", 0, 0, rules);
    ghost var out := "";
    var p: nat, seg: nat, count: nat := i0, e, 0;
    ghost var start: nat := 0;
    d := e;
    while a[p] != NUL
      invariant e <= seg <= d <= p <= len0 && count <= d - seg && |out| == d - e && start == seg - e
      invariant Unread(a, s2, p) && a[..e] == pre && a[e..d] == out
      invariant Clean(s2, p, out, start, count, rules) == target
      decreases len0 - p
    {
      TurnClean(s2, p, out, start, count, rules);
      p, d, seg, count, out, start := TurnIn(a, e, seg, d, p, count, rules, len0, s2, out, start);
    }
    PrefixSplit(a[..], e, d);
    Terminate(a, d);
  }

  // ---------------------------------------------------------------------
  // The leader on the buffer, and the entry points.

  /** `isalpha(e[0]) && e[1] == ':'`: a drive letter, upper-cased and skipped. */
  method DriveIn(a: array<char>, e: nat, unc: bool, len: nat) returns (e2: nat)
    requires MuNormalize.Holds(a, len) && e <= len
    modifies a
    ensures MuNormalize.Holds(a, len)
    ensures var r := Drive(old(a[..len]), e, unc); a[..len] == r.0 && e2 == r.1
  {
    ghost var s := a[..len];
    e2 := e;
    if IsAlpha(a[e]) && a[e + 1] == ':' {
      if a[e + 2] != '/' && unc {
      } else {
        a[e] := ToUpper(a[e]);
        assert a[..len] == s[e := ToUpper(s[e])];
        e2 := e + 2;
      }
    }
  }

  /** The `//server` scan: the byte that ends the server name, then `e_start`. */
  method ServerIn(a: array<char>, len: nat) returns (e2: nat)
    requires MuNormalize.Holds(a, len) && 2 <= len
    requires exists k :: 2 <= k < len && !ServerChar(a[..len][k])
    ensures var s := a[..len]; var p := ServerEnd(s, 2);
      e2 == if s[p] == '/' && At(s, p + 1) != '/' then p + 1 else 1
  {
    ghost var s := a[..len];
    ghost var stop := ServerEnd(s, 2);
    var p := 2;
    assert s[stop] != NUL && !ServerChar(s[stop]);
    while IsAlnum(a[p]) || a[p] == '_' || a[p] == '-' || a[p] == '$' || a[p] == NUL
      invariant 2 <= p <= stop
      decreases stop - p
    {
      p := p + 1;
    }
    assert p == stop by {
      assert !ServerChar(a[p]);
    }
    if a[p] == '/' && a[p + 1] != '/' {
      e2 := p + 1;
    } else {
      e2 := 1;
    }
  }

  /** Past the chain of `../` that starts at `e`, on the buffer. */
  method SkipParentsIn(a: array<char>, e: nat, len: nat) returns (e2: nat)
    requires MuNormalize.Holds(a, len) && e <= len
    ensures e2 == SkipParents(a[..len], e)
  {
    ghost var s := a[..len];
    e2 := e;
    while a[e2] == '.' && a[e2 + 1] == '.' && a[e2 + 2] == '/'
      invariant e <= e2 <= len
      invariant SkipParents(s, e2) == SkipParents(s, e)
      decreases len - e2
    {
      assert s[e2..e2 + 3] == "../";
      e2 := e2 + 3;
    }
    if e2 + 3 <= |s| {
      assert s[e2..e2 + 3] == [a[e2], a[e2 + 1], a[e2 + 2]];
    }
  }

  /** The leader handling for `start_at_offset == 0` on the unixified buffer. */
  method LeadIn(a: array<char>, len0: nat) returns (len: nat, e: nat)
    requires MuNormalize.Holds(a, len0) && LeadReadsWithinString(a[..len0])
    modifies a
    ensures MuNormalize.Holds(a, len)
    ensures var r := Lead(old(a[..len0])); a[..len] == r.0 && e == r.1
  {
    ghost var s := a[..len0];
    len := len0;
    if a[0] == '/' && a[1] == '/' {
      if (a[2] == '.' || a[2] == '?' || a[2] == NUL) && a[3] == '/' {
        e := DriveIn(a, 4, true, len);
      } else {
        e := ServerIn(a, len);
      }
    } else if a[0] == '.' {
      len, e := DotLeadIn(a, len0);
    } else if a[0] == '/' {
      e := DriveIn(a, 1, false, len);
    } else {
      e := DriveIn(a, 0, false, len);
    }
  }

  /** The leader when the string starts with `.`: `./` is cut off, `../` runs are skipped. */
  method DotLeadIn(a: array<char>, len0: nat) returns (len: nat, e: nat)
    requires MuNormalize.Holds(a, len0) && LeadReadsWithinString(a[..len0]) && a[0] == '.'
    modifies a
    ensures MuNormalize.Holds(a, len)
    ensures var r := Lead(old(a[..len0])); a[..len] == r.0 && e == r.1
  {
    ghost var s := a[..len0];
    len := len0;
    if a[1] == '/' {
      len := MuNormalize.Cut(a, 0, 1, len);
      assert a[..len] == s[2..];
      e := 0;
    } else if a[1] == '.' && a[2] == '/' {
      e := SkipParentsIn(a, 3, len);
    } else {
      e := 0;
    }
  }

  /** The rules `fz_sanitize_path_ex` runs with, for the caller's set and map. */
  function RulesFor(replaceSet: Option<string>, single: Option<string>, decode: Decoder, legal: int -> bool): (rules: Rules)
    requires single.Some? ==> NoNul(single.value)
    requires DecoderStaysWithin(decode) && DecoderReadsSequence(decode)
    ensures ValidRules(rules) && rules.repl == MakeReplacement(replaceSet, single)
  {
    Rules(MakeReplacement(replaceSet, single), decode, legal)
  }

  /** Past the early return, `Sanitized` is what the main pass appends to the kept leader. */
  lemma SanitizedByPass(path: string, offset: nat, rules: Rules, s2: string, e: nat)
    requires ValidRules(rules) && Sanitizable(path, offset) && !(offset != 0 && |path| <= offset)
    requires (s2, e) == Prepared(path, offset) && Sanitized(path, offset, rules).Some?
    ensures e <= |s2| && Clean(s2, SkipWhile(s2, e, '/'), "", 0, 0, rules).Some?
    ensures Sanitized(path, offset, rules).value == s2[..e] + Clean(s2, SkipWhile(s2, e, '/'), "", 0, 0, rules).value
  {
  }

  /** Unixify from the offset, then the leader (offset 0) or the `/` at the offset. */
  method PrepareIn(a: array<char>, offset: nat, len0: nat) returns (len: nat, e: nat)
    requires MuNormalize.Holds(a, len0) && (offset == 0 || offset < len0)
    requires offset == 0 ==> LeadReadsWithinString(MuNormalize.Unixify(a[..len0]))
    modifies a
    ensures MuNormalize.Holds(a, len)
    ensures (a[..len], e) == Prepared(old(a[..len0]), offset)
  {
    ghost var input := a[..len0];
    len := len0;
    MuNormalize.UnixifyBuffer(a, offset, len);
    ghost var s1 := input[..offset] + MuNormalize.Unixify(input[offset..]);
    assert a[..len] == s1 by {
      assert a[..len] == a[..offset] + a[offset..len];
      assert input[offset..len] == input[offset..];
    }
    if offset == 0 {
      assert s1 == MuNormalize.Unixify(input);
      len, e := LeadIn(a, len);
    } else {
      e := offset;
      if a[offset] == '/' && a[offset - 1] != '/' {
        e := offset + 1;
      }
    }
  }

  /** No terminator in the sanitized region: its bytes are separators or bytes `Emitted` allows. */
  lemma CleanHasNoNul(s: string, i: nat, rules: Rules)
    requires ValidRules(rules) && i <= |s| && Clean(s, i, "", 0, 0, rules).Some?
    ensures NoNul(Clean(s, i, "", 0, 0, rules).value)
  {
    CleanCharset(s, i, "", 0, 0, rules);
    var r := Clean(s, i, "", 0, 0, rules).value;
    forall k | 0 <= k < |r| ensures r[k] != NUL {
      assert r[k] == '/' || Emitted(r[k], rules);
    }
  }

  /** The result is the kept leader and then the region, and holds no terminator. */
  lemma SanitizedSplit(path: string, offset: nat, rules: Rules, s2: string, e: nat, kept: string, i0: nat)
    requires ValidRules(rules) && Sanitizable(path, offset) && !(offset != 0 && |path| <= offset)
    requires (s2, e) == Prepared(path, offset) && Sanitized(path, offset, rules).Some?
    requires NoNul(s2) && e <= |s2| && kept == s2[..e] && i0 == SkipWhile(s2, e, '/')
    ensures Clean(s2, i0, "", 0, 0, rules).Some?
    ensures Sanitized(path, offset, rules).value == kept + Clean(s2, i0, "", 0, 0, rules).value
    ensures NoNul(Sanitized(path, offset, rules).value)
  {
    SanitizedByPass(path, offset, rules, s2, e);
    CleanHasNoNul(s2, i0, rules);
  }

  /** The pass on a buffer holding a processed string: it ends up holding `Sanitized` of it. */
  method SanitizeBufferIn(a: array<char>, offset: nat, rules: Rules, len0: nat) returns (d: nat)
    requires ValidRules(rules) && MuNormalize.Holds(a, len0) && (offset == 0 || offset < len0)
    requires Sanitizable(a[..len0], offset) && Sanitized(a[..len0], offset, rules).Some?
    modifies a
    ensures MuNormalize.Holds(a, d)
    ensures a[..d] == Sanitized(old(a[..len0]), offset, rules).value
  {
    ghost var input := a[..len0];
    var len, e := PrepareIn(a, offset, len0);
    ghost var s2 := a[..len];
    var i0 := SkipRunIn(a, e, '/', s2);
    ghost var kept := a[..e];
    assert kept == s2[..e];
    SanitizedSplit(input, offset, rules, s2, e, kept, i0);
    d := CleanIn(a, e, i0, rules, len);
  }

  /**
   * `fz_sanitize_path_ex(path, set, replace_single, start_at_offset,
   * maximum_path_length)`: a NULL buffer is left alone; otherwise the
   * buffer ends up holding `Sanitized` of the string it held. Either way
   * the result is 0. `maximum_path_length` is not read.
   */
  method SanitizePathEx(path: array?<char>, replaceSet: Option<string>, replaceSingle: Option<string>,
                        offset: nat, maximumPathLength: nat, decode: Decoder, legal: int -> bool)
    returns (rc: int)
    requires replaceSingle.Some? ==> NoNul(replaceSingle.value)
    requires DecoderStaysWithin(decode) && DecoderReadsSequence(decode)
    requires path != null ==> exists i :: 0 <= i < path.Length && path[i] == NUL
    requires path != null ==> Sanitizable(CStrOf(path[..]), offset)
    requires path != null ==>
      Sanitized(CStrOf(path[..]), offset, RulesFor(replaceSet, replaceSingle, decode, legal)).Some?
    modifies path
    ensures rc == 0
    ensures path != null ==>
      CStrOf(path[..]) == Sanitized(old(CStrOf(path[..])), offset, RulesFor(replaceSet, replaceSingle, decode, legal)).value
  {
    rc := 0;
    if path == null {
      return;
    }
    var rules := RulesFor(replaceSet, replaceSingle, decode, legal);
    var len := MuNormalize.StrLen(path);
    if offset != 0 && len <= offset {
      return;
    }
    var d := SanitizeBufferIn(path, offset, rules, len);
    assert path[..][..d] == path[..d];
    CStrOfPrefix(path[..], d);
  }

  const SanitizeNullMessage: string := "fz_sanitize_path: dstpath cannot be NULL."
  const SanitizeOverrunMessage: string := "fz_sanitize_path: buffer overrun."

  /**
   * `fz_sanitize_path(dstpath, bufsize, path)`: copy `path` (when given)
   * into the buffer, then `fz_sanitize_path_ex` with no replacement set and
   * offset 0. Throws on a NULL buffer or one too small for the copy.
   */
  method SanitizePath(dst: array?<char>, path: Option<string>, decode: Decoder, legal: int -> bool)
    returns (r: Result<int>)
    requires DecoderStaysWithin(decode) && DecoderReadsSequence(decode)
    requires path.Some? ==> NoNul(path.value)
    requires dst != null && path.None? ==> exists i :: 0 <= i < dst.Length && dst[i] == NUL
    requires dst != null && (path.Some? ==> |path.value| + 1 <= dst.Length) ==>
      var input := if path.Some? then path.value else CStrOf(dst[..]);
      Sanitizable(input, 0) && Sanitized(input, 0, RulesFor(None, None, decode, legal)).Some?
    modifies dst
    ensures dst == null ==> r == Err(SanitizeNullMessage)
    ensures dst != null && path.Some? && dst.Length < |path.value| + 1 ==>
      r == Err(SanitizeOverrunMessage) && dst[..] == old(dst[..])
    ensures dst != null && (path.Some? ==> |path.value| + 1 <= dst.Length) ==>
      var input := if path.Some? then path.value else old(CStrOf(dst[..]));
      r == Ok(0) && CStrOf(dst[..]) == Sanitized(input, 0, RulesFor(None, None, decode, legal)).value
  {
    if dst == null {
      return Err(SanitizeNullMessage);
    }
    if path.Some? && dst.Length < |path.value| + 1 {
      return Err(SanitizeOverrunMessage);
    }
    var rules := RulesFor(None, None, decode, legal);
    var len := MuNormalize.Load(dst, path);
    var d := SanitizeBufferIn(dst, 0, rules, len);
    assert dst[..][..d] == dst[..d];
    CStrOfPrefix(dst[..], d);
    r := Ok(0);
  }
}
