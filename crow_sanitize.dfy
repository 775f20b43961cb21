/**
 * Crow's `sanitize_filename` (sanitize-filepath.c): cuts the name to 255
 * characters, then walks it once. At the start of the name and after
 * every kept separator it looks for a directory traversal `..` or a
 * Windows device name (`AUX`, `CON`, `COM1`-`COM9`, `LPT1`-`LPT9`, `NUL`,
 * `PRN`, in any case) that ends there or is followed by `.`, `:`, `/` or
 * `\`, and collapses it to one replacement character; then it replaces
 * control characters, the C1 range 0x80-0x9F and `?<>:*|"`, and a leading
 * separator. Characters stand for the bytes of the `std::string`.
 */
module CrowSanitize {
  import opened CrowUtility

  /** The characters `sanitize_filename` treats as separators. */
  predicate IsSep(c: char) {
    c == '/' || c == '\\'
  }

  /** The characters replaced wherever they occur. */
  predicate Banned(c: char) {
    c as int < 0x20 || (0x80 <= c as int <= 0x9F) ||
    c == '?' || c == '<' || c == '>' || c == ':' || c == '*' || c == '|' || c == '"'
  }

  /** Where `sanitizeSpecialFile` stops reading: after the pattern and, if asked for, one digit. */
  function Tail(ofs: nat, pat: string, number: bool): nat {
    ofs + |pat| + (if number then 1 else 0)
  }

  /**
   * `sanitizeSpecialFile(source, ofs, pattern, includeNumber, …)` finds its
   * pattern: `pattern` at `ofs` case-insensitively, then a digit `1`-`9` if
   * asked for, then the end of the name or one of `.`, `:`, `/`, `\`.
   */
  predicate Fires(s: string, ofs: nat, pat: string, number: bool) {
    ofs + |pat| <= |s| &&
    (forall m :: 0 <= m < |pat| ==> Upper(s[ofs + m]) == pat[m]) &&
    (number ==> ofs + |pat| < |s| && '1' <= s[ofs + |pat|] <= '9') &&
    var t := Tail(ofs, pat, number);
    t <= |s| && (t == |s| || s[t] == '.' || s[t] == ':' || IsSep(s[t]))
  }

  /**
   * What `sanitizeSpecialFile` leaves in `source`: when the pattern is
   * found, everything it read collapses to the replacement character.
   */
  function SpecialFile(s: string, ofs: nat, pat: string, number: bool, repl: char): (r: string)
    requires ofs < |s| && |pat| > 0
    ensures |r| <= |s| && ofs < |r| && r[..ofs] == s[..ofs]
    ensures r[ofs] == (if Fires(s, ofs, pat, number) then repl else s[ofs])
  {
    if Fires(s, ofs, pat, number) then s[..ofs] + [repl] + s[Tail(ofs, pat, number)..] else s
  }

  /** The device and traversal checks made at a segment start, by the upper-cased first character. */
  function Specials(s: string, i: nat, repl: char): (r: string)
    requires i < |s|
    ensures |r| <= |s| && i < |r| && r[..i] == s[..i]
  {
    var u := Upper(s[i]);
    if u == 'A' then SpecialFile(s, i, "AUX", false, repl)
    else if u == 'C' then
      var r := SpecialFile(s, i, "CON", false, repl);
      assert r[..i] == s[..i];
      SpecialFile(r, i, "COM", true, repl)
    else if u == 'L' then SpecialFile(s, i, "LPT", true, repl)
    else if u == 'N' then SpecialFile(s, i, "NUL", false, repl)
    else if u == 'P' then SpecialFile(s, i, "PRN", false, repl)
    else if u == '.' then SpecialFile(s, i, "..", false, repl)
    else s
  }

  /** One of the names `sanitize_filename` removes starts at `k`. */
  predicate Special(s: string, k: nat) {
    Fires(s, k, "AUX", false) || Fires(s, k, "CON", false) || Fires(s, k, "COM", true) ||
    Fires(s, k, "LPT", true) || Fires(s, k, "NUL", false) || Fires(s, k, "PRN", false) ||
    Fires(s, k, "..", false)
  }

  /** The state of the loop after one position: the name and `checkForSpecialEntries`. */
  datatype Scan = Scan(text: string, check: bool)

  /** One iteration of the loop at position `i`. */
  function Step(s: string, i: nat, check: bool, repl: char): (n: Scan)
    requires i < |s|
    ensures |n.text| <= |s| && i < |n.text|
  {
    var s1 := if check then Specials(s, i, repl) else s;
    var c := s1[i];
    if Banned(c) then Scan(s1[i := repl], false)
    else if IsSep(c) then (if i == 0 then Scan(s1[i := repl], false) else Scan(s1, true))
    else Scan(s1, false)
  }

  /** The rest of the loop, from position `i`. */
  function Pass(s: string, i: nat, check: bool, repl: char): (r: string)
    decreases |s| - i
  {
    if i >= |s| then s
    else
      var n := Step(s, i, check, repl);
      Pass(n.text, i + 1, n.check, repl)
  }

  /** The first 255 characters of the name. */
  function Cut(data: string): string {
    if |data| > 255 then data[..255] else data
  }

  /** What `sanitize_filename(data, replacement)` leaves in `data`. */
  function Sanitized(data: string, repl: char): string {
    Pass(Cut(data), 0, true, repl)
  }

  // ---------------------------------------------------------------------
  // What the pass leaves behind.

  /**
   * A replacement character that cannot itself start or end one of the
   * removed names, or be replaced again: not replaced, no separator, no
   * dot, no letter, no digit (the default `_` is one).
   */
  predicate SafeReplacement(c: char) {
    !Banned(c) && !IsSep(c) && c != '.' && !('A' <= Upper(c) <= 'Z') && !('0' <= c <= '9')
  }

  /** Position `k` starts a path segment. */
  predicate SegmentStart(s: string, k: nat) {
    k == 0 || (k <= |s| && IsSep(s[k - 1]))
  }

  /**
   * A name `sanitize_filename` has nothing to do to: at most 255
   * characters, none of them replaced, no leading separator, and no
   * traversal or device name at any segment start.
   */
  predicate Clean(s: string) {
    |s| <= 255 &&
    (forall k :: 0 <= k < |s| ==> !Banned(s[k])) &&
    (|s| > 0 ==> !IsSep(s[0])) &&
    (forall k: nat :: k < |s| && SegmentStart(s, k) ==> !Special(s, k))
  }

  /** A character a removed name is spelled with: a letter, a dot or a digit. */
  predicate NameChar(c: char) {
    'A' <= Upper(c) <= 'Z' || c == '.' || '0' <= c <= '9'
  }

  /** A pattern of upper-case letters and dots. */
  predicate Plain(pat: string) {
    forall m :: 0 <= m < |pat| ==> 'A' <= pat[m] <= 'Z' || pat[m] == '.'
  }

  /** The patterns of the device and traversal checks are plain. */
  lemma PatternsPlain()
    ensures Plain("AUX") && Plain("CON") && Plain("COM") && Plain("LPT") && Plain("NUL") && Plain("PRN") && Plain("..")
  {
  }

  /** A found pattern is spelled with name characters up to its follow-up character. */
  lemma FiresWindow(s: string, k: nat, pat: string, number: bool)
    requires Plain(pat) && Fires(s, k, pat, number)
    ensures forall m :: k <= m < Tail(k, pat, number) ==> NameChar(s[m])
  {
    forall m | k <= m < Tail(k, pat, number) ensures NameChar(s[m]) {
      if m < k + |pat| {
        assert Upper(s[k + (m - k)]) == pat[m - k];
      }
    }
  }

  /**
   * A pattern found at `k` ends before a separator at `i - 1`, so it is
   * found in any name that agrees on the first `i` characters.
   */
  lemma FiresLocal(s: string, s2: string, k: nat, i: nat, pat: string, number: bool)
    requires Plain(pat) && k < i <= |s| && i <= |s2| && s[..i] == s2[..i] && IsSep(s[i - 1])
    requires Fires(s, k, pat, number)
    ensures Fires(s2, k, pat, number)
  {
    FiresWindow(s, k, pat, number);
    var t := Tail(k, pat, number);
    assert forall m :: 0 <= m < i ==> s2[m] == s[..i][m];
  }

  /** Whether a name starts at `k` before a separator at `i - 1` depends only on the first `i` characters. */
  lemma SpecialLocal(s: string, s2: string, k: nat, i: nat)
    requires k < i <= |s| && i <= |s2| && s[..i] == s2[..i] && IsSep(s[i - 1])
    ensures Special(s, k) <==> Special(s2, k)
  {
    PatternsPlain();
    assert IsSep(s2[i - 1]) by {
      assert s2[i - 1] == s[..i][i - 1];
    }
    if Special(s, k) {
      if Fires(s, k, "AUX", false) { FiresLocal(s, s2, k, i, "AUX", false); }
      if Fires(s, k, "CON", false) { FiresLocal(s, s2, k, i, "CON", false); }
      if Fires(s, k, "COM", true) { FiresLocal(s, s2, k, i, "COM", true); }
      if Fires(s, k, "LPT", true) { FiresLocal(s, s2, k, i, "LPT", true); }
      if Fires(s, k, "NUL", false) { FiresLocal(s, s2, k, i, "NUL", false); }
      if Fires(s, k, "PRN", false) { FiresLocal(s, s2, k, i, "PRN", false); }
      if Fires(s, k, "..", false) { FiresLocal(s, s2, k, i, "..", false); }
    }
    if Special(s2, k) {
      if Fires(s2, k, "AUX", false) { FiresLocal(s2, s, k, i, "AUX", false); }
      if Fires(s2, k, "CON", false) { FiresLocal(s2, s, k, i, "CON", false); }
      if Fires(s2, k, "COM", true) { FiresLocal(s2, s, k, i, "COM", true); }
      if Fires(s2, k, "LPT", true) { FiresLocal(s2, s, k, i, "LPT", true); }
      if Fires(s2, k, "NUL", false) { FiresLocal(s2, s, k, i, "NUL", false); }
      if Fires(s2, k, "PRN", false) { FiresLocal(s2, s, k, i, "PRN", false); }
      if Fires(s2, k, "..", false) { FiresLocal(s2, s, k, i, "..", false); }
    }
  }

  /** Writing a safe replacement after `k` cannot make a pattern appear at `k`. */
  lemma FiresAfterReplace(s: string, k: nat, i: nat, pat: string, number: bool, repl: char)
    requires SafeReplacement(repl) && Plain(pat) && k < i < |s|
    requires Fires(s[i := repl], k, pat, number)
    ensures Fires(s, k, pat, number)
  {
    var s2 := s[i := repl];
    FiresWindow(s2, k, pat, number);
    var t := Tail(k, pat, number);
  }

  /** Writing a safe replacement after `k` cannot make a name appear at `k`. */
  lemma SpecialAfterReplace(s: string, k: nat, i: nat, repl: char)
    requires SafeReplacement(repl) && k < i < |s| && Special(s[i := repl], k)
    ensures Special(s, k)
  {
    PatternsPlain();
    var s2 := s[i := repl];
    if Fires(s2, k, "AUX", false) { FiresAfterReplace(s, k, i, "AUX", false, repl); }
    if Fires(s2, k, "CON", false) { FiresAfterReplace(s, k, i, "CON", false, repl); }
    if Fires(s2, k, "COM", true) { FiresAfterReplace(s, k, i, "COM", true, repl); }
    if Fires(s2, k, "LPT", true) { FiresAfterReplace(s, k, i, "LPT", true, repl); }
    if Fires(s2, k, "NUL", false) { FiresAfterReplace(s, k, i, "NUL", false, repl); }
    if Fires(s2, k, "PRN", false) { FiresAfterReplace(s, k, i, "PRN", false, repl); }
    if Fires(s2, k, "..", false) { FiresAfterReplace(s, k, i, "..", false, repl); }
  }

  /** A found pattern starts with the character it was looked up by. */
  lemma FiresStart(s: string, k: nat, pat: string, number: bool)
    requires |pat| > 0 && Fires(s, k, pat, number)
    ensures Upper(s[k]) == pat[0]
  {
    assert s[k + 0] == s[k];
  }

  /** A name starting at `k` starts with the upper-cased character there. */
  lemma SpecialStart(s: string, k: nat)
    requires Special(s, k)
    ensures k < |s|
    ensures var u := Upper(s[k]); u == 'A' || u == 'C' || u == 'L' || u == 'N' || u == 'P' || u == '.'
    ensures Upper(s[k]) == 'A' ==> Fires(s, k, "AUX", false)
    ensures Upper(s[k]) == 'C' ==> Fires(s, k, "CON", false) || Fires(s, k, "COM", true)
    ensures Upper(s[k]) == 'L' ==> Fires(s, k, "LPT", true)
    ensures Upper(s[k]) == 'N' ==> Fires(s, k, "NUL", false)
    ensures Upper(s[k]) == 'P' ==> Fires(s, k, "PRN", false)
    ensures Upper(s[k]) == '.' ==> Fires(s, k, "..", false)
  {
    if Fires(s, k, "AUX", false) { FiresStart(s, k, "AUX", false); }
    if Fires(s, k, "CON", false) { FiresStart(s, k, "CON", false); }
    if Fires(s, k, "COM", true) { FiresStart(s, k, "COM", true); }
    if Fires(s, k, "LPT", true) { FiresStart(s, k, "LPT", true); }
    if Fires(s, k, "NUL", false) { FiresStart(s, k, "NUL", false); }
    if Fires(s, k, "PRN", false) { FiresStart(s, k, "PRN", false); }
    if Fires(s, k, "..", false) { FiresStart(s, k, "..", false); }
  }

  /** No name starts at a safe replacement character. */
  lemma NoSpecialAtReplacement(s: string, k: nat, repl: char)
    requires SafeReplacement(repl) && k < |s| && s[k] == repl
    ensures !Special(s, k)
  {
    if Special(s, k) {
      SpecialStart(s, k);
    }
  }

  /**
   * The checks at a segment start either write the replacement there or
   * leave a name in which no name starts there.
   */
  lemma SpecialsOutcome(s: string, i: nat, repl: char)
    requires i < |s|
    ensures var r := Specials(s, i, repl); r[i] == repl || (r == s && !Special(s, i))
  {
    var r := Specials(s, i, repl);
    if r[i] != repl && Special(s, i) {
      SpecialStart(s, i);
    }
  }

  /** Where no name starts, the checks change nothing. */
  lemma SpecialsQuiet(s: string, i: nat, repl: char)
    requires i < |s| && !Special(s, i)
    ensures Specials(s, i, repl) == s
  {
  }

  /**
   * What holds of the name before position `i`: within 255 characters,
   * `checkForSpecialEntries` set exactly at segment starts, nothing to
   * replace, no leading separator, and no name at a segment start.
   */
  predicate Scanned(s: string, i: nat, check: bool) {
    i <= |s| <= 255 && check == SegmentStart(s, i) &&
    (forall k :: 0 <= k < i ==> !Banned(s[k])) &&
    (i > 0 ==> !IsSep(s[0])) &&
    (forall k: nat :: k < i && SegmentStart(s, k) ==> !Special(s, k))
  }

  /** The position a step works on ends up free of names, replaced characters and leading separators. */
  lemma StepSettlesHere(s: string, i: nat, check: bool, repl: char)
    requires SafeReplacement(repl) && i < |s| && check == SegmentStart(s, i)
    ensures var s2 := Step(s, i, check, repl).text;
      s2[..i] == s[..i] && !Banned(s2[i]) && (i == 0 ==> !IsSep(s2[0])) &&
      Step(s, i, check, repl).check == SegmentStart(s2, i + 1) &&
      (check ==> !Special(s2, i))
  {
    var s1 := if check then Specials(s, i, repl) else s;
    var s2 := Step(s, i, check, repl).text;
    if check {
      SpecialsOutcome(s, i, repl);
      if s2[i] == repl {
        NoSpecialAtReplacement(s2, i, repl);
      } else {
        assert s2 == s1 && s1 == s;
      }
    }
  }

  /** A step leaves the names at earlier segment starts as they were. */
  lemma StepKeepsEarlier(s: string, i: nat, check: bool, repl: char, k: nat)
    requires SafeReplacement(repl) && k < i < |s| && check == SegmentStart(s, i)
    requires SegmentStart(s, k) && !Special(s, k)
    ensures !Special(Step(s, i, check, repl).text, k)
  {
    var s2 := Step(s, i, check, repl).text;
    if check {
      SpecialLocal(s, s2, k, i);
    } else if s2 != s {
      assert s2 == s[i := repl];
      if Special(s2, k) {
        SpecialAfterReplace(s, k, i, repl);
      }
    }
  }

  /** A step keeps what holds before the position it works on, one position further. */
  lemma StepKeeps(s: string, i: nat, check: bool, repl: char)
    requires SafeReplacement(repl) && i < |s| && Scanned(s, i, check)
    ensures var n := Step(s, i, check, repl); Scanned(n.text, i + 1, n.check)
  {
    var n := Step(s, i, check, repl);
    var s2 := n.text;
    StepSettlesHere(s, i, check, repl);
    assert forall k :: 0 <= k < i ==> s2[k] == s[..i][k] == s[k];
    forall k: nat | k < i + 1 && SegmentStart(s2, k) ensures !Special(s2, k) {
      if k < i {
        StepKeepsEarlier(s, i, check, repl, k);
      }
    }
  }

  /** The rest of the pass ends in a clean name no longer than where it started. */
  lemma {:induction false} PassClean(s: string, i: nat, check: bool, repl: char)
    requires SafeReplacement(repl) && Scanned(s, i, check)
    ensures Clean(Pass(s, i, check, repl)) && |Pass(s, i, check, repl)| <= |s|
    decreases |s| - i
  {
    if i < |s| {
      var n := Step(s, i, check, repl);
      StepKeeps(s, i, check, repl);
      PassClean(n.text, i + 1, n.check, repl);
    }
  }

  /**
   * With a safe replacement character, a sanitized name is clean: at most
   * 255 characters and no longer than the input, nothing left to replace,
   * no leading separator, and no `..` or device name at any segment start.
   */
  lemma SanitizedIsClean(data: string, repl: char)
    requires SafeReplacement(repl)
    ensures var r := Sanitized(data, repl); Clean(r) && |r| <= |data|
  {
    PassClean(Cut(data), 0, true, repl);
  }

  /** The rest of the pass over a clean name changes nothing. */
  lemma {:induction false} PassFixes(s: string, i: nat, check: bool, repl: char)
    requires Clean(s) && i <= |s| && check == SegmentStart(s, i)
    ensures Pass(s, i, check, repl) == s
    decreases |s| - i
  {
    if i < |s| {
      if check {
        SpecialsQuiet(s, i, repl);
      }
      assert Step(s, i, check, repl) == Scan(s, IsSep(s[i]));
      PassFixes(s, i + 1, IsSep(s[i]), repl);
    }
  }

  /**
   * `sanitize_filename` leaves a clean name as it is, and with a safe
   * replacement character it changes every other name.
   */
  lemma SanitizedUnchangedIffClean(s: string, repl: char)
    ensures Clean(s) ==> Sanitized(s, repl) == s
    ensures SafeReplacement(repl) && Sanitized(s, repl) == s ==> Clean(s)
  {
    if Clean(s) {
      PassFixes(s, 0, true, repl);
    }
    if SafeReplacement(repl) {
      SanitizedIsClean(s, repl);
    }
  }

  /** Sanitizing twice with a safe replacement character is sanitizing once. */
  lemma SanitizedIdempotent(data: string, repl: char)
    requires SafeReplacement(repl)
    ensures Sanitized(Sanitized(data, repl), repl) == Sanitized(data, repl)
  {
    SanitizedIsClean(data, repl);
    SanitizedUnchangedIffClean(Sanitized(data, repl), repl);
  }

  // ---------------------------------------------------------------------
  // A clean directory in front.

  /** Finding a pattern does not depend on what stands before it. */
  lemma FiresShift(p: string, t: string, k: nat, pat: string, number: bool)
    ensures Fires(p + t, |p| + k, pat, number) <==> Fires(t, k, pat, number)
  {
    var s := p + t;
    if Fires(t, k, pat, number) {
      assert forall j :: k <= j < k + |pat| ==> s[|p| + j] == t[j];
    }
    if Fires(s, |p| + k, pat, number) {
      assert forall j :: k <= j < k + |pat| ==> s[|p| + j] == t[j];
    }
  }

  /** Collapsing a found name does not touch what stands before it. */
  lemma SpecialFileShift(p: string, t: string, k: nat, pat: string, number: bool, repl: char)
    requires k < |t| && |pat| > 0
    ensures SpecialFile(p + t, |p| + k, pat, number, repl) == p + SpecialFile(t, k, pat, number, repl)
  {
    FiresShift(p, t, k, pat, number);
    if Fires(t, k, pat, number) {
      var s := p + t;
      assert s[..|p| + k] == p + t[..k];
      assert s[Tail(|p| + k, pat, number)..] == t[Tail(k, pat, number)..];
    }
  }

  /** The checks at a segment start do not touch what stands before it. */
  lemma SpecialsShift(p: string, t: string, k: nat, repl: char)
    requires k < |t|
    ensures Specials(p + t, |p| + k, repl) == p + Specials(t, k, repl)
  {
    assert (p + t)[|p| + k] == t[k];
    var u := Upper(t[k]);
    if u == 'A' {
      SpecialFileShift(p, t, k, "AUX", false, repl);
    } else if u == 'C' {
      SpecialFileShift(p, t, k, "CON", false, repl);
      SpecialFileShift(p, SpecialFile(t, k, "CON", false, repl), k, "COM", true, repl);
    } else if u == 'L' {
      SpecialFileShift(p, t, k, "LPT", true, repl);
    } else if u == 'N' {
      SpecialFileShift(p, t, k, "NUL", false, repl);
    } else if u == 'P' {
      SpecialFileShift(p, t, k, "PRN", false, repl);
    } else if u == '.' {
      SpecialFileShift(p, t, k, "..", false, repl);
    }
  }

  /**
   * Past the first position, the pass works on the part after `p` as it
   * would on that part alone.
   */
  lemma {:induction false} PassShift(p: string, t: string, i: nat, check: bool, repl: char)
    requires SafeReplacement(repl) && |p| > 0
    requires i == 0 && |t| > 0 ==> !IsSep(t[0])
    ensures Pass(p + t, |p| + i, check, repl) == p + Pass(t, i, check, repl)
    decreases |t| - i
  {
    if i < |t| {
      StepShift(p, t, i, check, repl);
      var n := Step(t, i, check, repl);
      PassShift(p, n.text, i + 1, n.check, repl);
    }
  }

  /** One step behind a prefix is the same step, with the prefix kept. */
  lemma StepShift(p: string, t: string, i: nat, check: bool, repl: char)
    requires SafeReplacement(repl) && |p| > 0 && i < |t| && (i == 0 ==> !IsSep(t[0]))
    ensures var n := Step(t, i, check, repl);
      Step(p + t, |p| + i, check, repl) == Scan(p + n.text, n.check)
  {
    var s1 := if check then Specials(t, i, repl) else t;
    if check {
      SpecialsShift(p, t, i, repl);
    }
    assert (p + s1)[|p| + i] == s1[i];
    if i == 0 && check {
      SpecialsOutcome(t, 0, repl);
    }
    if Banned(s1[i]) {
      assert (p + s1)[|p| + i := repl] == p + s1[i := repl];
    }
  }


  /** No name starts at a segment start of a clean prefix that ends in a separator, whatever follows. */
  lemma CleanPrefixQuiet(p: string, t: string, i: nat)
    requires Clean(p) && 0 < |p| && IsSep(p[|p| - 1]) && i < |p| && SegmentStart(p, i)
    ensures !Special(p + t, i)
  {
    assert (p + t)[..|p|] == p[..|p|];
    SpecialLocal(p, p + t, i, |p|);
  }

  /** A clean prefix ending in a separator is passed over unchanged, leaving a segment start behind it. */
  lemma {:induction false} PassOverClean(p: string, t: string, i: nat, repl: char)
    requires Clean(p) && 0 < |p| && IsSep(p[|p| - 1]) && i <= |p|
    ensures Pass(p + t, i, SegmentStart(p, i), repl) == Pass(p + t, |p|, true, repl)
    decreases |p| - i
  {
    if i < |p| {
      StepOverClean(p, t, i, repl);
      PassOverClean(p, t, i + 1, repl);
    }
  }

  /** One step over a clean prefix changes nothing and notes whether a segment starts next. */
  lemma StepOverClean(p: string, t: string, i: nat, repl: char)
    requires Clean(p) && 0 < |p| && IsSep(p[|p| - 1]) && i < |p|
    ensures Step(p + t, i, SegmentStart(p, i), repl) == Scan(p + t, SegmentStart(p, i + 1))
  {
    var s := p + t;
    assert s[i] == p[i];
    assert SegmentStart(s, i) == SegmentStart(p, i);
    if SegmentStart(p, i) {
      CleanPrefixQuiet(p, t, i);
      SpecialsQuiet(s, i, repl);
    }
  }

  /**
   * Behind a clean directory (a clean name ending in a separator), the
   * rest of a name is sanitized as if it stood alone, as long as the whole
   * fits in 255 characters and the rest does not start with a separator.
   */
  lemma SanitizedBehindCleanDirectory(p: string, t: string, repl: char)
    requires SafeReplacement(repl) && Clean(p) && 0 < |p| && IsSep(p[|p| - 1])
    requires |p| + |t| <= 255 && (|t| > 0 ==> !IsSep(t[0]))
    ensures Sanitized(p + t, repl) == p + Sanitized(t, repl)
  {
    PassOverClean(p, t, 0, repl);
    PassShift(p, t, 0, true, repl);
  }

  // ---------------------------------------------------------------------
  // A single segment.

  /** `s` with every replaced character turned into `repl`. */
  function ReplacedChars(s: string, repl: char): (r: string)
    ensures |r| == |s|
  {
    seq(|s|, k requires 0 <= k < |s| => if Banned(s[k]) then repl else s[k])
  }

  /** Past the first position of a name without separators, the pass only replaces characters. */
  lemma {:induction false} PassReplacesOnly(s: string, t: string, i: nat, repl: char)
    requires SafeReplacement(repl) && 0 < i <= |s| && |t| == |s|
    requires forall k :: 0 <= k < |s| ==> !IsSep(s[k])
    requires t[..i] == ReplacedChars(s, repl)[..i] && t[i..] == s[i..]
    ensures Pass(t, i, false, repl) == ReplacedChars(s, repl)
    decreases |s| - i
  {
    if i < |s| {
      StepReplacesOnly(s, t, i, repl);
      PassReplacesOnly(s, Step(t, i, false, repl).text, i + 1, repl);
    } else {
      assert t == t[..i];
    }
  }

  /** One step of `PassReplacesOnly`: the character at `i` is replaced or kept, and the next check is off. */
  lemma StepReplacesOnly(s: string, t: string, i: nat, repl: char)
    requires SafeReplacement(repl) && 0 < i < |s| && |t| == |s|
    requires forall k :: 0 <= k < |s| ==> !IsSep(s[k])
    requires t[..i] == ReplacedChars(s, repl)[..i] && t[i..] == s[i..]
    ensures var n := Step(t, i, false, repl);
      !n.check && |n.text| == |s| && n.text[..i + 1] == ReplacedChars(s, repl)[..i + 1] && n.text[i + 1..] == s[i + 1..]
  {
    var r := ReplacedChars(s, repl);
    assert t[i] == t[i..][0] == s[i];
    var t2 := Step(t, i, false, repl).text;
    assert t2[..i + 1] == r[..i + 1];
    assert t2[i + 1..] == s[i + 1..];
  }

  /**
   * A name without separators and without a device name or traversal at
   * its start comes out with exactly its replaced characters changed.
   */
  lemma SanitizedOneSegment(s: string, repl: char)
    requires SafeReplacement(repl) && 0 < |s| <= 255 && !Special(s, 0)
    requires forall k :: 0 <= k < |s| ==> !IsSep(s[k])
    ensures Sanitized(s, repl) == ReplacedChars(s, repl)
  {
    SpecialsQuiet(s, 0, repl);
    var t := Step(s, 0, true, repl).text;
    assert t[..1] == ReplacedChars(s, repl)[..1];
    PassReplacesOnly(s, t, 1, repl);
  }

  // ---------------------------------------------------------------------
  // Single steps of the pass, for working through examples.

  /** A pattern is not found where one of its characters is missing. */
  lemma Mismatch(s: string, k: nat, pat: string, number: bool, m: nat)
    requires m < |pat| && k + m < |s| && Upper(s[k + m]) != pat[m]
    ensures !Fires(s, k, pat, number)
  {
  }

  /** No name starts at `k` when the pattern picked by its first character is not found. */
  lemma NoSpecialHere(s: string, k: nat)
    requires k < |s|
    requires Upper(s[k]) == 'A' ==> !Fires(s, k, "AUX", false)
    requires Upper(s[k]) == 'C' ==> !Fires(s, k, "CON", false) && !Fires(s, k, "COM", true)
    requires Upper(s[k]) == 'L' ==> !Fires(s, k, "LPT", true)
    requires Upper(s[k]) == 'N' ==> !Fires(s, k, "NUL", false)
    requires Upper(s[k]) == 'P' ==> !Fires(s, k, "PRN", false)
    requires Upper(s[k]) == '.' ==> !Fires(s, k, "..", false)
    ensures !Special(s, k)
  {
    if Special(s, k) {
      SpecialStart(s, k);
    }
  }

  /** An ordinary character where no name starts is kept. */
  lemma PassKeeps(s: string, i: nat, check: bool, repl: char)
    requires i < |s| && !Banned(s[i]) && !IsSep(s[i]) && (check ==> !Special(s, i))
    ensures Pass(s, i, check, repl) == Pass(s, i + 1, false, repl)
  {
    if check {
      SpecialsQuiet(s, i, repl);
    }
  }

  /** A separator after the first position is kept and starts a segment. */
  lemma PassSeparator(s: string, i: nat, check: bool, repl: char)
    requires 0 < i < |s| && IsSep(s[i])
    ensures Pass(s, i, check, repl) == Pass(s, i + 1, true, repl)
  {
    if check && Special(s, i) {
      SpecialStart(s, i);
    }
    if check {
      SpecialsQuiet(s, i, repl);
    }
  }

  /** A separator in the first position is replaced. */
  lemma PassLeadingSeparator(s: string, repl: char)
    requires 0 < |s| && IsSep(s[0])
    ensures Pass(s, 0, true, repl) == Pass(s[0 := repl], 1, false, repl)
  {
    if Special(s, 0) {
      SpecialStart(s, 0);
    }
    SpecialsQuiet(s, 0, repl);
  }

  /** A replaced character where no name starts. */
  lemma PassReplaces(s: string, i: nat, check: bool, repl: char)
    requires i < |s| && Banned(s[i]) && (check ==> !Special(s, i))
    ensures Pass(s, i, check, repl) == Pass(s[i := repl], i + 1, false, repl)
  {
    if check {
      SpecialsQuiet(s, i, repl);
    }
  }

  /** A name found at a segment start collapses to the replacement character. */
  lemma PassCollapses(s: string, i: nat, pat: string, number: bool, repl: char)
    requires SafeReplacement(repl) && i < |s|
    requires var u := Upper(s[i]);
      (u == 'A' && pat == "AUX" && !number) || (u == 'C' && pat == "CON" && !number) ||
      (u == 'C' && pat == "COM" && number && !Fires(s, i, "CON", false)) ||
      (u == 'L' && pat == "LPT" && number) || (u == 'N' && pat == "NUL" && !number) ||
      (u == 'P' && pat == "PRN" && !number) || (u == '.' && pat == ".." && !number)
    requires Fires(s, i, pat, number)
    ensures Pass(s, i, true, repl) == Pass(SpecialFile(s, i, pat, number, repl), i + 1, false, repl)
  {
    var r := SpecialFile(s, i, pat, number, repl);
    if Upper(s[i]) == 'C' && pat == "CON" {
      assert SpecialFile(r, i, "COM", true, repl) == r by {
        if Fires(r, i, "COM", true) {
          FiresStart(r, i, "COM", true);
        }
      }
    }
  }

  /** A run of separators after the first position is kept, and the next character starts a segment. */
  lemma {:induction false} PassSeparators(s: string, i: nat, m: nat, check: bool, repl: char)
    requires 0 < i < m <= |s| && forall k :: i <= k < m ==> IsSep(s[k])
    ensures Pass(s, i, check, repl) == Pass(s, m, true, repl)
    decreases m - i
  {
    PassSeparator(s, i, check, repl);
    if i + 1 < m {
      PassSeparators(s, i + 1, m, true, repl);
    }
  }

  /** After a run of separators that does not open the name, the rest is sanitized as a name of its own. */
  lemma PassIntoSegment(s: string, i: nat, m: nat, check: bool, repl: char)
    requires SafeReplacement(repl) && 0 < i < m <= |s| && forall k :: i <= k < m ==> IsSep(s[k])
    requires m < |s| ==> !IsSep(s[m])
    ensures Pass(s, i, check, repl) == s[..m] + Pass(s[m..], 0, true, repl)
  {
    PassSeparators(s, i, m, check, repl);
    if m < |s| {
      PassSplit(s, m, repl);
    } else {
      assert s[..m] == s && s[m..] == "";
    }
  }

  /** A fresh segment starting at `m` is sanitized as a name of its own. */
  lemma PassSplit(s: string, m: nat, repl: char)
    requires SafeReplacement(repl) && 0 < m < |s| && !IsSep(s[m])
    ensures Pass(s, m, true, repl) == s[..m] + Pass(s[m..], 0, true, repl)
  {
    var p, t := s[..m], s[m..];
    assert p + t == s;
    PassShift(p, t, 0, true, repl);
  }

  /**
   * Inside a segment, past its first position: ordinary characters up to
   * `j`, then separators up to `m`, after which a new segment starts that is
   * sanitized as a name of its own.
   */
  lemma {:induction false} PassThroughSegment(s: string, i: nat, j: nat, m: nat, repl: char)
    requires SafeReplacement(repl) && 0 < i <= j <= m <= |s| && (j == m ==> m == |s|)
    requires forall k :: i <= k < j ==> !Banned(s[k]) && !IsSep(s[k])
    requires forall k :: j <= k < m ==> IsSep(s[k])
    requires m < |s| ==> !IsSep(s[m])
    ensures Pass(s, i, false, repl) == s[..m] + Pass(s[m..], 0, true, repl)
    decreases j - i
  {
    if i < j {
      PassKeeps(s, i, false, repl);
      PassThroughSegment(s, i + 1, j, m, repl);
    } else if i < m {
      PassIntoSegment(s, i, m, false, repl);
    } else {
      assert s[..m] == s && s[m..] == "";
    }
  }

  // ---------------------------------------------------------------------
  // The routines.

  /**
   * `sanitizeSpecialFile`: looks for the pattern, and on a match erases
   * what it read after `ofs` and writes the replacement at `ofs`.
   */
  method SanitizeSpecialFile(source: string, ofs: nat, pattern: string, includeNumber: bool, replacement: char)
    returns (r: string)
    requires ofs < |source| && |pattern| > 0
    ensures r == SpecialFile(source, ofs, pattern, includeNumber, replacement)
  {
    var i := PatternEnd(source, ofs, pattern, includeNumber);
    if i < 0 {
      return source;
    }
    r := source[..ofs + 1] + source[i..];
    r := r[ofs := replacement];
    assert r == source[..ofs] + [replacement] + source[i..];
  }

  /**
   * The matching part of `sanitizeSpecialFile`: the pattern one character
   * at a time, then the digit and the follow-up character; the offset
   * after what was read on a match, -1 otherwise.
   */
  method PatternEnd(source: string, ofs: nat, pattern: string, includeNumber: bool) returns (i: int)
    requires ofs < |source| && |pattern| > 0
    ensures i < 0 <==> !Fires(source, ofs, pattern, includeNumber)
    ensures i >= 0 ==> i == Tail(ofs, pattern, includeNumber)
  {
    var len, p := |source|, 0;
    i := ofs;
    while p < |pattern|
      invariant 0 <= p <= |pattern| && i == ofs + p <= len
      invariant forall m :: 0 <= m < p ==> Upper(source[ofs + m]) == pattern[m]
    {
      if i >= len || Upper(source[i]) != pattern[p] {
        return -1;
      }
      i, p := i + 1, p + 1;
    }
    if includeNumber {
      if i >= len || source[i] < '1' || source[i] > '9' {
        return -1;
      }
      i := i + 1;
    }
    if !(i >= len || source[i] == '.' || source[i] == ':' || source[i] == '/' || source[i] == '\\') {
      return -1;
    }
  }

  /**
   * `sanitize_filename`: one pass over the cut name, with the device and
   * traversal checks at every segment start and the character replacements
   * at every position.
   */
  method SanitizeFilename(data: string, replacement: char) returns (r: string)
    ensures r == Sanitized(data, replacement)
  {
    var s := data;
    if |s| > 255 {
      s := s[..255];
    }
    var checkForSpecialEntries := true;
    var i: nat := 0;
    while i < |s|
      invariant Pass(s, i, checkForSpecialEntries, replacement) == Sanitized(data, replacement)
      decreases |s| - i
    {
      ghost var n := Step(s, i, checkForSpecialEntries, replacement);
      if checkForSpecialEntries {
        checkForSpecialEntries := false;
        var u := Upper(s[i]);
        if u == 'A' {
          s := SanitizeSpecialFile(s, i, "AUX", false, replacement);
        } else if u == 'C' {
          s := SanitizeSpecialFile(s, i, "CON", false, replacement);
          s := SanitizeSpecialFile(s, i, "COM", true, replacement);
        } else if u == 'L' {
          s := SanitizeSpecialFile(s, i, "LPT", true, replacement);
        } else if u == 'N' {
          s := SanitizeSpecialFile(s, i, "NUL", false, replacement);
        } else if u == 'P' {
          s := SanitizeSpecialFile(s, i, "PRN", false, replacement);
        } else if u == '.' {
          s := SanitizeSpecialFile(s, i, "..", false, replacement);
        }
      }
      var c := s[i];
      if Banned(c) {
        s := s[i := replacement];
      } else if c == '/' || c == '\\' {
        if i == 0 {
          s := s[i := replacement];
        } else {
          checkForSpecialEntries := true;
        }
      }
      assert n == Scan(s, checkForSpecialEntries);
      i := i + 1;
    }
    r := s;
  }
}
