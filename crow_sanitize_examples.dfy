/**
 * The expectations sanitize.cpp:180-200 places on Crow's
 * `sanitize_filename`, with `_` as the replacement character, proved of
 * the model. Each name is a parameter fixed by a precondition, and each
 * expectation is worked through one segment at a time.
 */
module CrowSanitizeExamples {
  import opened CrowUtility
  import opened CrowSanitize

  /** `abc/` has nothing to sanitize. */
  lemma CleanAbc(dir: string)
    requires dir == "abc/"
    ensures Clean(dir)
  {
    Mismatch(dir, 0, "AUX", false, 1);
    NoSpecialHere(dir, 0);
    assert forall k: nat :: k < |dir| && SegmentStart(dir, k) ==> k == 0;
  }

  /** Behind `abc/`, a name is sanitized on its own. */
  lemma BehindAbc(dir: string, name: string)
    requires dir == "abc/" && |name| <= 251 && (|name| > 0 ==> !IsSep(name[0]))
    ensures Sanitized(dir + name, '_') == dir + Sanitized(name, '_')
  {
    CleanAbc(dir);
    SanitizedBehindCleanDirectory(dir, name, '_');
  }

  /**
   * A name whose first segment is kept: ordinary characters up to `j`,
   * separators up to `m`, and the rest sanitized as a name of its own.
   */
  lemma KeptThen(t: string, j: nat, m: nat)
    requires 0 < j <= m <= |t| <= 255 && (j == m ==> m == |t|) && !Special(t, 0)
    requires forall k :: 0 <= k < j ==> !Banned(t[k]) && !IsSep(t[k])
    requires forall k :: j <= k < m ==> IsSep(t[k])
    requires m < |t| ==> !IsSep(t[m])
    ensures Sanitized(t, '_') == t[..m] + Sanitized(t[m..], '_')
  {
    calc {
      Sanitized(t, '_');
      { assert Cut(t) == t; }
      Pass(t, 0, true, '_');
      { PassKeeps(t, 0, true, '_'); }
      Pass(t, 1, false, '_');
      { PassThroughSegment(t, 1, j, m, '_'); }
      t[..m] + Pass(t[m..], 0, true, '_');
      { assert Cut(t[m..]) == t[m..]; }
      t[..m] + Sanitized(t[m..], '_');
    }
  }

  /**
   * A name whose first segment starts with a device name or traversal: it
   * collapses to `r`, whose ordinary characters up to `j` and separators up
   * to `m` are kept, and the rest is sanitized as a name of its own.
   */
  lemma CollapsesThen(t: string, pat: string, number: bool, r: string, j: nat, m: nat)
    requires 0 < |t| <= 255 && Fires(t, 0, pat, number)
    requires var u := Upper(t[0]);
      (u == 'A' && pat == "AUX" && !number) || (u == 'C' && pat == "CON" && !number) ||
      (u == 'C' && pat == "COM" && number && !Fires(t, 0, "CON", false)) ||
      (u == 'L' && pat == "LPT" && number) || (u == 'N' && pat == "NUL" && !number) ||
      (u == '.' && pat == ".." && !number)
    requires r == SpecialFile(t, 0, pat, number, '_')
    requires 1 <= j <= m <= |r| && (j == m ==> m == |r|)
    requires forall k :: 1 <= k < j ==> !Banned(r[k]) && !IsSep(r[k])
    requires forall k :: j <= k < m ==> IsSep(r[k])
    requires m < |r| ==> !IsSep(r[m])
    ensures Sanitized(t, '_') == r[..m] + Sanitized(r[m..], '_')
  {
    assert Cut(t) == t && Cut(r[m..]) == r[m..];
    PassCollapses(t, 0, pat, number, '_');
    if j == 1 && m == 1 {
      assert r[..m] == r && r[m..] == "";
    } else {
      PassThroughSegment(r, 1, j, m, '_');
    }
  }

  /** `def` is kept. */
  lemma DefKept(name: string)
    requires name == "def"
    ensures Sanitized(name, '_') == name
  {
    NoSpecialHere(name, 0);
    KeptThen(name, 3, 3);
  }

  /** sanitize.cpp:180: `abc/def` is kept. */
  lemma PlainPathKept(dir: string, name: string)
    requires dir == "abc/" && name == "def"
    ensures Sanitized(dir + name, '_') == dir + name
  {
    BehindAbc(dir, name);
    DefKept(name);
  }

  /** The collapsed `..` of `../def`. */
  lemma ParentOfDef(name: string, r: string)
    requires name == "../def" && r == "_/def"
    ensures Sanitized(name, '_') == r
  {
    assert Fires(name, 0, "..", false) && SpecialFile(name, 0, "..", false, '_') == r;
    CollapsesThen(name, "..", false, r, 1, 2);
    DefKept(r[2..]);
  }

  /** sanitize.cpp:181: `abc/../def` becomes `abc/_/def`. */
  lemma ParentCollapses(dir: string, name: string)
    requires dir == "abc/" && name == "../def"
    ensures Sanitized(dir + name, '_') == dir + "_/def"
  {
    BehindAbc(dir, name);
    ParentOfDef(name, "_/def");
  }

  /** `.../def` keeps the third dot. */
  lemma ThreeDotsOfDef(t: string, r: string)
    requires t == ".../def" && r == "_./def"
    ensures Sanitized(t, '_') == r
  {
    assert Fires(t, 0, "..", false) && SpecialFile(t, 0, "..", false, '_') == r;
    CollapsesThen(t, "..", false, r, 2, 3);
    DefKept(r[3..]);
  }

  /**
   * A traversal segment at the start of a name collapses, its separators
   * are kept, and the rest is sanitized as a name of its own.
   */
  lemma ParentHead(t: string, seps: string, rest: string)
    requires t == ".." + seps + rest && |t| <= 255 && 0 < |seps|
    requires forall k :: 0 <= k < |seps| ==> IsSep(seps[k])
    requires |rest| > 0 ==> !IsSep(rest[0])
    ensures Sanitized(t, '_') == "_" + seps + Sanitized(rest, '_')
  {
    var r := "_" + seps + rest;
    assert t[2] == seps[0];
    assert Fires(t, 0, "..", false);
    assert SpecialFile(t, 0, "..", false, '_') == r by {
      assert t[2..] == seps + rest;
    }
    CollapsesThen(t, "..", false, r, 1, 1 + |seps|);
    assert r[..1 + |seps|] == "_" + seps && r[1 + |seps|..] == rest;
  }

  /**
   * An ordinary first segment where no name starts is kept with its
   * separators, and the rest is sanitized as a name of its own.
   */
  lemma KeptHead(t: string, word: string, seps: string, rest: string)
    requires t == word + seps + rest && |t| <= 255 && 0 < |word| && 0 < |seps| && !Special(t, 0)
    requires forall k :: 0 <= k < |word| ==> !Banned(word[k]) && !IsSep(word[k])
    requires forall k :: 0 <= k < |seps| ==> IsSep(seps[k])
    requires |rest| > 0 ==> !IsSep(rest[0])
    ensures Sanitized(t, '_') == word + seps + Sanitized(rest, '_')
  {
    var j, m := |word|, |word| + |seps|;
    assert forall k :: 0 <= k < j ==> t[k] == word[k];
    assert forall k :: j <= k < m ==> t[k] == seps[k - j];
    KeptThen(t, j, m);
    assert t[..m] == word + seps && t[m..] == rest;
  }

  /** `..//.../def`: a traversal, a doubled separator, then three dots. */
  lemma ParentThenThreeDots(t: string, rest: string)
    requires t == "..//" + rest && rest == ".../def"
    ensures Sanitized(t, '_') == "_//_./def"
  {
    ParentHead(t, "//", rest);
    ThreeDotsOfDef(rest, "_./def");
  }

  /** `..\\` opening a name collapses to `_\\`. */
  lemma ParentBackslash(t: string, rest: string)
    requires t == "..\\" + rest && |t| <= 255 && (|rest| > 0 ==> !IsSep(rest[0]))
    ensures Sanitized(t, '_') == "_\\" + Sanitized(rest, '_')
  {
    ParentHead(t, "\\", rest);
  }

  /** `..\\..\\..//.../def`: three traversals under one another. */
  lemma ThreeParents(t: string, t1: string, t2: string)
    requires t == "..\\" + t1 && t1 == "..\\" + t2 && t2 == "..//.../def"
    ensures Sanitized(t, '_') == "_\\" + ("_\\" + "_//_./def")
  {
    ParentBackslash(t, t1);
    TwoParents(t1, t2);
  }

  /** `..\\..//.../def`: two traversals under one another. */
  lemma TwoParents(t1: string, t2: string)
    requires t1 == "..\\" + t2 && t2 == "..//.../def"
    ensures Sanitized(t1, '_') == "_\\" + "_//_./def"
  {
    ParentBackslash(t1, t2);
    ParentSplit(t2);
    ParentThenThreeDots(t2, ".../def");
  }

  lemma ParentSplit(t2: string)
    requires t2 == "..//.../def"
    ensures t2 == "..//" + ".../def"
  {
  }

  /** The expected text of sanitize.cpp:182, assembled from its segments. */
  lemma TraversalsText(r: string)
    requires r == "_\\" + ("_\\" + "_//_./def")
    ensures r == "_\\_\\_//_./def"
  {
    assert r[..2] == "_\\" && r[2..4] == "_\\" && r[4..] == "_//_./def";
  }

  /** sanitize.cpp:182: every traversal segment collapses, whatever its separators. */
  lemma TraversalsCollapse(dir: string, name: string, t1: string, t2: string)
    requires dir == "abc/" && name == "..\\" + t1 && t1 == "..\\" + t2 && t2 == "..//.../def"
    ensures Sanitized(dir + name, '_') == dir + "_\\_\\_//_./def"
  {
    BehindAbc(dir, name);
    ThreeParents(name, t1, t2);
    TraversalsText(Sanitized(name, '_'));
  }

  /** `..../def`. */
  lemma FourDotsOfDef(t: string, r: string)
    requires t == "..../def" && r == "_../def"
    ensures Sanitized(t, '_') == r
  {
    assert Fires(t, 0, "..", false) && SpecialFile(t, 0, "..", false, '_') == r;
    CollapsesThen(t, "..", false, r, 3, 4);
    DefKept(r[4..]);
  }

  /** sanitize.cpp:183: of four dots only the first two collapse. */
  lemma FourDotsCollapse(dir: string, name: string)
    requires dir == "abc/" && name == "..../def"
    ensures Sanitized(dir + name, '_') == dir + "_../def"
  {
    BehindAbc(dir, name);
    FourDotsOfDef(name, "_../def");
  }

  /** `x../def` is kept. */
  lemma DotsInsideKept(t: string, rest: string)
    requires t == "x../" + rest && rest == "def"
    ensures Sanitized(t, '_') == t
  {
    NoSpecialHere(t, 0);
    KeptHead(t, "x..", "/", rest);
    DefKept(rest);
  }

  /** sanitize.cpp:184: dots inside a name are kept. */
  lemma DotsInsideNameKept(dir: string, name: string)
    requires dir == "abc/" && name == "x../def"
    ensures Sanitized(dir + name, '_') == dir + name
  {
    BehindAbc(dir, name);
    DotsInsideKept(name, "def");
  }

  /** `passwd` is kept. */
  lemma PasswdKept(t: string)
    requires t == "passwd"
    ensures Sanitized(t, '_') == t
  {
    Mismatch(t, 0, "PRN", false, 1);
    NoSpecialHere(t, 0);
    KeptThen(t, 6, 6);
  }

  /** `etc/passwd` is kept. */
  lemma EtcPasswdKept(t: string, rest: string)
    requires t == "etc/" + rest && rest == "passwd"
    ensures Sanitized(t, '_') == t
  {
    NoSpecialHere(t, 0);
    KeptHead(t, "etc", "/", rest);
    PasswdKept(rest);
  }

  /** sanitize.cpp:185: a leading traversal collapses. */
  lemma LeadingParentCollapses(s: string, t1: string, t2: string)
    requires s == "../" + t1 && t1 == "etc/" + t2 && t2 == "passwd"
    ensures Sanitized(s, '_') == "_/" + t1
  {
    ParentHead(s, "/", t1);
    EtcPasswdKept(t1, t2);
  }

  /** A device name that is the whole name collapses to the replacement character. */
  lemma DeviceAlone(t: string, pat: string, number: bool)
    requires 0 < |t| <= 255 && Fires(t, 0, pat, number) && Tail(0, pat, number) == |t|
    requires var u := Upper(t[0]);
      (u == 'A' && pat == "AUX" && !number) || (u == 'C' && pat == "CON" && !number) ||
      (u == 'C' && pat == "COM" && number && !Fires(t, 0, "CON", false)) ||
      (u == 'L' && pat == "LPT" && number) || (u == 'N' && pat == "NUL" && !number)
    ensures Sanitized(t, '_') == "_"
  {
    var r := SpecialFile(t, 0, pat, number, '_');
    assert r == "_";
    CollapsesThen(t, pat, number, r, 1, 1);
  }

  /** sanitize.cpp:186: `abc/AUX` becomes `abc/_`. */
  lemma AuxCollapses(dir: string, name: string)
    requires dir == "abc/" && name == "AUX"
    ensures Sanitized(dir + name, '_') == dir + "_"
  {
    BehindAbc(dir, name);
    AuxName(name);
  }

  /** `AUX` collapses. */
  lemma AuxName(t: string)
    requires t == "AUX"
    ensures Sanitized(t, '_') == "_"
  {
    assert Fires(t, 0, "AUX", false);
    DeviceAlone(t, "AUX", false);
  }

  /** `foo` is kept. */
  lemma FooKept(t: string)
    requires t == "foo"
    ensures Sanitized(t, '_') == t
  {
    NoSpecialHere(t, 0);
    KeptThen(t, 3, 3);
  }

  /** `AUX/foo`. */
  lemma AuxDirectory(t: string, rest: string)
    requires t == "AUX/" + rest && rest == "foo"
    ensures Sanitized(t, '_') == "_/" + rest
  {
    assert Fires(t, 0, "AUX", false);
    var r := SpecialFile(t, 0, "AUX", false, '_');
    assert r == "_/" + rest;
    CollapsesThen(t, "AUX", false, r, 1, 2);
    assert r[2..] == rest;
    FooKept(rest);
  }

  /** sanitize.cpp:187: a device name collapses as a directory too. */
  lemma AuxDirectoryCollapses(dir: string, name: string)
    requires dir == "abc/" && name == "AUX/foo"
    ensures Sanitized(dir + name, '_') == dir + "_/foo"
  {
    BehindAbc(dir, name);
    AuxDirectory(name, "foo");
  }

  /** `AUX:`: the colon ends the device name and is then replaced. */
  lemma AuxColon(t: string)
    requires t == "AUX:"
    ensures Sanitized(t, '_') == "__"
  {
    assert Fires(t, 0, "AUX", false);
    var r := SpecialFile(t, 0, "AUX", false, '_');
    assert r == "_:";
    assert Cut(t) == t;
    PassCollapses(t, 0, "AUX", false, '_');
    PassReplaces(r, 1, false, '_');
  }

  /** sanitize.cpp:188: `abc/AUX:` becomes `abc/__`. */
  lemma AuxColonCollapses(dir: string, name: string)
    requires dir == "abc/" && name == "AUX:"
    ensures Sanitized(dir + name, '_') == dir + "__"
  {
    BehindAbc(dir, name);
    AuxColon(name);
  }

  /** sanitize.cpp:189: a longer name that starts like a device is kept. */
  lemma AuxPrefixKept(dir: string, name: string)
    requires dir == "abc/" && name == "AUXxy"
    ensures Sanitized(dir + name, '_') == dir + name
  {
    BehindAbc(dir, name);
    AuxPrefix(name);
  }

  /** `AUXxy` is kept. */
  lemma AuxPrefix(t: string)
    requires t == "AUXxy"
    ensures Sanitized(t, '_') == t
  {
    assert !Fires(t, 0, "AUX", false);
    NoSpecialHere(t, 0);
    KeptThen(t, 5, 5);
  }

  /** `AUX.xy`. */
  lemma AuxExtension(t: string)
    requires t == "AUX.xy"
    ensures Sanitized(t, '_') == "_.xy"
  {
    assert Fires(t, 0, "AUX", false);
    var r := SpecialFile(t, 0, "AUX", false, '_');
    assert r == "_.xy";
    CollapsesThen(t, "AUX", false, r, 4, 4);
  }

  /** sanitize.cpp:190: a device name with an extension keeps the extension. */
  lemma AuxExtensionCollapses(dir: string, name: string)
    requires dir == "abc/" && name == "AUX.xy"
    ensures Sanitized(dir + name, '_') == dir + "_.xy"
  {
    BehindAbc(dir, name);
    AuxExtension(name);
  }

  /** sanitize.cpp:191 and 193: `NUL`, in any case, becomes `_`. */
  lemma NulCollapses(dir: string, name: string)
    requires dir == "abc/" && (name == "NUL" || name == "NuL")
    ensures Sanitized(dir + name, '_') == dir + "_"
  {
    BehindAbc(dir, name);
    NulName(name);
  }

  /** `NUL` and `NuL` collapse. */
  lemma NulName(t: string)
    requires t == "NUL" || t == "NuL"
    ensures Sanitized(t, '_') == "_"
  {
    assert Fires(t, 0, "NUL", false);
    DeviceAlone(t, "NUL", false);
  }

  /** sanitize.cpp:192: a device name cut short is kept. */
  lemma NuKept(dir: string, name: string)
    requires dir == "abc/" && name == "NU"
    ensures Sanitized(dir + name, '_') == dir + name
  {
    BehindAbc(dir, name);
    NoSpecialHere(name, 0);
    KeptThen(name, 2, 2);
  }

  /** `LPT1\`. */
  lemma PrinterPort(t: string)
    requires t == "LPT1\\"
    ensures Sanitized(t, '_') == "_\\"
  {
    assert Fires(t, 0, "LPT", true);
    var r := SpecialFile(t, 0, "LPT", true, '_');
    assert r == "_\\";
    CollapsesThen(t, "LPT", true, r, 1, 2);
  }

  /** sanitize.cpp:194: a numbered printer port collapses and its separator is kept. */
  lemma PrinterPortCollapses(dir: string, name: string)
    requires dir == "abc/" && name == "LPT1\\"
    ensures Sanitized(dir + name, '_') == dir + "_\\"
  {
    BehindAbc(dir, name);
    PrinterPort(name);
  }

  /** sanitize.cpp:195 and 197: numbered serial ports collapse. */
  lemma SerialPortCollapses(dir: string, name: string)
    requires dir == "abc/" && (name == "COM1" || name == "COM9")
    ensures Sanitized(dir + name, '_') == dir + "_"
  {
    BehindAbc(dir, name);
    SerialPort(name);
  }

  /** `COM1` and `COM9` collapse. */
  lemma SerialPort(t: string)
    requires t == "COM1" || t == "COM9"
    ensures Sanitized(t, '_') == "_"
  {
    Mismatch(t, 0, "CON", false, 2);
    assert Fires(t, 0, "COM", true);
    DeviceAlone(t, "COM", true);
  }

  /** sanitize.cpp:198: a serial port without its number is kept. */
  lemma SerialPortKept(dir: string, name: string)
    requires dir == "abc/" && name == "COM"
    ensures Sanitized(dir + name, '_') == dir + name
  {
    BehindAbc(dir, name);
    ComName(name);
  }

  /** `COM` is kept. */
  lemma ComName(t: string)
    requires t == "COM"
    ensures Sanitized(t, '_') == t
  {
    Mismatch(t, 0, "CON", false, 2);
    NoSpecialHere(t, 0);
    KeptThen(t, 3, 3);
  }

  /** sanitize.cpp:199: `abc/CON` becomes `abc/_`. */
  lemma ConsoleCollapses(dir: string, name: string)
    requires dir == "abc/" && name == "CON"
    ensures Sanitized(dir + name, '_') == dir + "_"
  {
    BehindAbc(dir, name);
    ConName(name);
  }

  /** `CON` collapses. */
  lemma ConName(t: string)
    requires t == "CON"
    ensures Sanitized(t, '_') == "_"
  {
    assert Fires(t, 0, "CON", false);
    DeviceAlone(t, "CON", false);
  }

  /** sanitize.cpp:196: every replaced character is replaced. */
  lemma ReservedCharactersReplaced(s: string)
    requires s == "ab?<>:*|\"cd"
    ensures Sanitized(s, '_') == "ab_______cd"
  {
    Mismatch(s, 0, "AUX", false, 1);
    NoSpecialHere(s, 0);
    SanitizedOneSegment(s, '_');
  }

  /** sanitize.cpp:200: a leading separator is replaced. */
  lemma LeadingSeparatorReplaced(s: string, r: string)
    requires s == "/abc/" && r == "_abc/"
    ensures Sanitized(s, '_') == r
  {
    assert Cut(s) == s && s[0 := '_'] == r;
    PassLeadingSeparator(s, '_');
    PassThroughSegment(r, 1, 4, 5, '_');
  }
}
