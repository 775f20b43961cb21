/**
 * MuPDF's detector of reserved and otherwise dangerous file and directory
 * names (sanitize-filepath.c, `is_reserved_filename` and its `has_*`
 * helpers). Every test is case-insensitive.
 */
module MuReserved {
  import opened CStrings

  /** `has_prefix`: `s` starts with `prefix`, ignoring case. */
  predicate HasPrefix(s: string, prefix: string) {
    StartsWithIgnoringCase(s, prefix)
  }

  /** `has_postfix`: `s` ends with `postfix`, ignoring case. */
  predicate HasPostfix(s: string, postfix: string) {
    |postfix| <= |s| && EqualIgnoringCase(s[|s| - |postfix|..], postfix)
  }

  /**
   * `has_basename`: `s` starts with `name` and the name is followed by the
   * end of the string or by a dot (an extension).
   */
  predicate HasBasename(s: string, name: string) {
    HasPrefix(s, name) && (|s| == |name| || s[|name|] == '.')
  }

  /**
   * `has_infix`: `infix` occurs in `s` at an offset `i < |s| - |infix|`,
   * i.e. at least one byte must follow the occurrence. The bound is the
   * source's own `i < slen - len`.
   */
  predicate HasInfix(s: string, infix: string) {
    |infix| <= |s| && exists i :: 0 <= i < |s| - |infix| && InfixAt(s, infix, i)
  }

  /** `infix` occurs in `s` at offset `i`, ignoring case. */
  predicate InfixAt(s: string, infix: string, i: nat)
    requires i <= |s|
  {
    HasPrefix(s[i..], infix)
  }

  /**
   * `is_reserved_filename`, with the dispatch on the lower-cased first byte
   * exactly as the source has it. The `ds_store` test after the `return` of
   * the `.` case is unreachable and therefore absent.
   */
  predicate IsReservedFilename(s: string) {
    if HasInfix(s, "_vti_") then true
    else if HasPostfix(s, "$") then true
    else if HasPostfix(s, "~") then true
    else if s == [] then false
    else
      match ToLower(s[0])
      case 'a' => HasBasename(s, "aux")
      case 'd' => HasBasename(s, "dev") || HasPrefix(s, "desktop.ini")
      case 'c' => HasBasename(s, "con") || (HasPrefix(s, "com") && IsDigit(At(s, 3)))
      case 'l' => HasPrefix(s, "lpt") && IsDigit(At(s, 3))
      case 'n' => HasBasename(s, "nul") || HasBasename(s, "null")
      case 'p' => HasBasename(s, "prn")
      case 's' => HasBasename(s, "stdin") || HasBasename(s, "stdout") || HasBasename(s, "stderr")
      case '_' => HasBasename(s, "__macosx")
      case '~' => true
      case '.' => HasBasename(s[1..], "lock")
      case '$' => true
      case '-' => true
      case _ => false
  }

  /**
   * The rule list written as one disjunction, without the first-byte
   * dispatch: the reference the detector is proved against.
   */
  predicate ReservedByRules(s: string) {
    HasInfix(s, "_vti_")
    || HasPostfix(s, "$") || HasPostfix(s, "~")
    || HasPrefix(s, "~") || HasPrefix(s, "$") || HasPrefix(s, "-")
    || HasBasename(s, "aux") || HasBasename(s, "dev") || HasBasename(s, "con")
    || HasBasename(s, "nul") || HasBasename(s, "null") || HasBasename(s, "prn")
    || HasBasename(s, "stdin") || HasBasename(s, "stdout") || HasBasename(s, "stderr")
    || HasBasename(s, "__macosx")
    || HasPrefix(s, "desktop.ini")
    || (HasPrefix(s, "com") && |s| > 3 && IsDigit(s[3]))
    || (HasPrefix(s, "lpt") && |s| > 3 && IsDigit(s[3]))
    || (HasPrefix(s, ".") && HasBasename(s[1..], "lock"))
  }

  /** A prefix test can only succeed when the first bytes agree. */
  lemma PrefixFirst(s: string, p: string)
    requires |p| > 0
    ensures HasPrefix(s, p) ==> |s| > 0 && ToLower(s[0]) == ToLower(p[0])
    ensures HasBasename(s, p) ==> HasPrefix(s, p)
  {
    if HasPrefix(s, p) {
      assert LowerAll(s[..|p|])[0] == LowerAll(p)[0];
    }
  }

  lemma SinglePrefix(s: string, p: string)
    requires |p| == 1 && |s| > 0
    ensures HasPrefix(s, p) <==> ToLower(s[0]) == ToLower(p[0])
  {
    assert LowerAll(s[..1]) == [ToLower(s[0])];
    assert LowerAll(p) == [ToLower(p[0])];
  }

  /** Which first byte each prefix rule needs. */
  lemma Gates(s: string)
    ensures HasPrefix(s, "aux") ==> |s| > 0 && ToLower(s[0]) == 'a'
    ensures HasPrefix(s, "dev") ==> |s| > 0 && ToLower(s[0]) == 'd'
    ensures HasPrefix(s, "desktop.ini") ==> |s| > 0 && ToLower(s[0]) == 'd'
    ensures HasPrefix(s, "con") ==> |s| > 0 && ToLower(s[0]) == 'c'
    ensures HasPrefix(s, "com") ==> |s| > 0 && ToLower(s[0]) == 'c'
    ensures HasPrefix(s, "lpt") ==> |s| > 0 && ToLower(s[0]) == 'l'
    ensures HasPrefix(s, "nul") ==> |s| > 0 && ToLower(s[0]) == 'n'
    ensures HasPrefix(s, "null") ==> |s| > 0 && ToLower(s[0]) == 'n'
    ensures HasPrefix(s, "prn") ==> |s| > 0 && ToLower(s[0]) == 'p'
    ensures HasPrefix(s, "stdin") ==> |s| > 0 && ToLower(s[0]) == 's'
    ensures HasPrefix(s, "stdout") ==> |s| > 0 && ToLower(s[0]) == 's'
    ensures HasPrefix(s, "stderr") ==> |s| > 0 && ToLower(s[0]) == 's'
    ensures HasPrefix(s, "__macosx") ==> |s| > 0 && ToLower(s[0]) == '_'
    ensures HasPrefix(s, "~") ==> |s| > 0 && ToLower(s[0]) == '~'
    ensures HasPrefix(s, "$") ==> |s| > 0 && ToLower(s[0]) == '$'
    ensures HasPrefix(s, "-") ==> |s| > 0 && ToLower(s[0]) == '-'
    ensures HasPrefix(s, ".") ==> |s| > 0 && ToLower(s[0]) == '.'
    ensures HasBasename(s, "aux") ==> HasPrefix(s, "aux")
    ensures HasBasename(s, "dev") ==> HasPrefix(s, "dev")
    ensures HasBasename(s, "con") ==> HasPrefix(s, "con")
    ensures HasBasename(s, "nul") ==> HasPrefix(s, "nul")
    ensures HasBasename(s, "null") ==> HasPrefix(s, "null")
    ensures HasBasename(s, "prn") ==> HasPrefix(s, "prn")
    ensures HasBasename(s, "stdin") ==> HasPrefix(s, "stdin")
    ensures HasBasename(s, "stdout") ==> HasPrefix(s, "stdout")
    ensures HasBasename(s, "stderr") ==> HasPrefix(s, "stderr")
    ensures HasBasename(s, "__macosx") ==> HasPrefix(s, "__macosx")
  {
    PrefixFirst(s, "aux");
    PrefixFirst(s, "dev");
    PrefixFirst(s, "desktop.ini");
    PrefixFirst(s, "con");
    PrefixFirst(s, "com");
    PrefixFirst(s, "lpt");
    PrefixFirst(s, "nul");
    PrefixFirst(s, "null");
    PrefixFirst(s, "prn");
    PrefixFirst(s, "stdin");
    PrefixFirst(s, "stdout");
    PrefixFirst(s, "stderr");
    PrefixFirst(s, "__macosx");
    PrefixFirst(s, "~");
    PrefixFirst(s, "$");
    PrefixFirst(s, "-");
    PrefixFirst(s, ".");
  }

  lemma DispatchCaseA(s: string)
    requires |s| > 0 && ToLower(s[0]) == 'a'
    ensures IsReservedFilename(s) <==> ReservedByRules(s)
  {
    Gates(s);
  }

  lemma DispatchCaseD(s: string)
    requires |s| > 0 && ToLower(s[0]) == 'd'
    ensures IsReservedFilename(s) <==> ReservedByRules(s)
  {
    Gates(s);
  }

  lemma DispatchCaseC(s: string)
    requires |s| > 0 && ToLower(s[0]) == 'c'
    ensures IsReservedFilename(s) <==> ReservedByRules(s)
  {
    Gates(s);
  }

  lemma DispatchCaseL(s: string)
    requires |s| > 0 && ToLower(s[0]) == 'l'
    ensures IsReservedFilename(s) <==> ReservedByRules(s)
  {
    Gates(s);
  }

  lemma DispatchCaseN(s: string)
    requires |s| > 0 && ToLower(s[0]) == 'n'
    ensures IsReservedFilename(s) <==> ReservedByRules(s)
  {
    Gates(s);
  }

  lemma DispatchCaseP(s: string)
    requires |s| > 0 && ToLower(s[0]) == 'p'
    ensures IsReservedFilename(s) <==> ReservedByRules(s)
  {
    Gates(s);
  }

  lemma DispatchCaseS(s: string)
    requires |s| > 0 && ToLower(s[0]) == 's'
    ensures IsReservedFilename(s) <==> ReservedByRules(s)
  {
    Gates(s);
  }

  lemma DispatchCaseUnderscore(s: string)
    requires |s| > 0 && ToLower(s[0]) == '_'
    ensures IsReservedFilename(s) <==> ReservedByRules(s)
  {
    Gates(s);
  }

  lemma DispatchCaseDot(s: string)
    requires |s| > 0 && ToLower(s[0]) == '.'
    ensures IsReservedFilename(s) <==> ReservedByRules(s)
  {
    Gates(s);
    SinglePrefix(s, ".");
  }

  lemma DispatchCaseTilde(s: string)
    requires |s| > 0 && ToLower(s[0]) == '~'
    ensures IsReservedFilename(s) <==> ReservedByRules(s)
  {
    Gates(s);
    SinglePrefix(s, "~");
  }

  lemma DispatchCaseDollar(s: string)
    requires |s| > 0 && ToLower(s[0]) == '$'
    ensures IsReservedFilename(s) <==> ReservedByRules(s)
  {
    Gates(s);
    SinglePrefix(s, "$");
  }

  lemma DispatchCaseDash(s: string)
    requires |s| > 0 && ToLower(s[0]) == '-'
    ensures IsReservedFilename(s) <==> ReservedByRules(s)
  {
    Gates(s);
    SinglePrefix(s, "-");
  }

  lemma DispatchCaseOther(s: string)
    requires |s| > 0 && ToLower(s[0]) !in "adclnps_.~$-"
    ensures IsReservedFilename(s) <==> ReservedByRules(s)
  {
    Gates(s);
    SinglePrefix(s, "~");
    SinglePrefix(s, "$");
    SinglePrefix(s, "-");
    SinglePrefix(s, ".");
  }

  /** The first-byte dispatch loses no rule and adds none. */
  lemma ReservedMatchesRules(s: string)
    ensures IsReservedFilename(s) <==> ReservedByRules(s)
  {
    if |s| == 0 {
      Gates(s);
    } else {
      var c := ToLower(s[0]);
      if c == 'a' {
        DispatchCaseA(s);
      } else if c == 'd' {
        DispatchCaseD(s);
      } else if c == 'c' {
        DispatchCaseC(s);
      } else if c == 'l' {
        DispatchCaseL(s);
      } else if c == 'n' {
        DispatchCaseN(s);
      } else if c == 'p' {
        DispatchCaseP(s);
      } else if c == 's' {
        DispatchCaseS(s);
      } else if c == '_' {
        DispatchCaseUnderscore(s);
      } else if c == '.' {
        DispatchCaseDot(s);
      } else if c == '~' {
        DispatchCaseTilde(s);
      } else if c == '$' {
        DispatchCaseDollar(s);
      } else if c == '-' {
        DispatchCaseDash(s);
      } else {
        DispatchCaseOther(s);
      }
    }
  }

  lemma HasPrefixCase(s: string, t: string, p: string)
    requires EqualIgnoringCase(s, t)
    ensures HasPrefix(s, p) <==> HasPrefix(t, p)
  {
    if |p| <= |s| {
      LowerAllSlice(s, 0, |p|);
      LowerAllSlice(t, 0, |p|);
    }
  }

  lemma HasPostfixCase(s: string, t: string, p: string)
    requires EqualIgnoringCase(s, t)
    ensures HasPostfix(s, p) <==> HasPostfix(t, p)
  {
    if |p| <= |s| {
      LowerAllSlice(s, |s| - |p|, |s|);
      LowerAllSlice(t, |s| - |p|, |s|);
    }
  }

  lemma HasBasenameCase(s: string, t: string, p: string)
    requires EqualIgnoringCase(s, t)
    ensures HasBasename(s, p) <==> HasBasename(t, p)
  {
    HasPrefixCase(s, t, p);
    if |p| < |s| {
      assert LowerAll(s)[|p|] == LowerAll(t)[|p|];
    }
  }

  lemma HasInfixCase(s: string, t: string, p: string)
    requires EqualIgnoringCase(s, t)
    ensures HasInfix(s, p) <==> HasInfix(t, p)
  {
    if HasInfix(s, p) {
      var i :| 0 <= i < |s| - |p| && InfixAt(s, p, i);
      LowerAllSlice(s, i, |s|);
      LowerAllSlice(t, i, |s|);
      HasPrefixCase(s[i..], t[i..], p);
      assert InfixAt(t, p, i);
    }
    if HasInfix(t, p) {
      var i :| 0 <= i < |t| - |p| && InfixAt(t, p, i);
      LowerAllSlice(s, i, |s|);
      LowerAllSlice(t, i, |s|);
      HasPrefixCase(t[i..], s[i..], p);
      assert InfixAt(s, p, i);
    }
  }

  lemma RuleTestsIgnoreCase(s: string, t: string)
    requires EqualIgnoringCase(s, t)
    ensures forall p :: HasPrefix(s, p) <==> HasPrefix(t, p)
    ensures forall p :: HasBasename(s, p) <==> HasBasename(t, p)
    ensures forall p :: HasPostfix(s, p) <==> HasPostfix(t, p)
    ensures HasInfix(s, "_vti_") <==> HasInfix(t, "_vti_")
    ensures |s| == |t| && (|s| > 3 ==> (IsDigit(s[3]) <==> IsDigit(t[3])))
    ensures |s| > 0 ==> (HasBasename(s[1..], "lock") <==> HasBasename(t[1..], "lock"))
  {
    forall p ensures HasPrefix(s, p) <==> HasPrefix(t, p) {
      HasPrefixCase(s, t, p);
    }
    forall p ensures HasBasename(s, p) <==> HasBasename(t, p) {
      HasBasenameCase(s, t, p);
    }
    forall p ensures HasPostfix(s, p) <==> HasPostfix(t, p) {
      HasPostfixCase(s, t, p);
    }
    HasInfixCase(s, t, "_vti_");
    if |s| > 3 {
      assert LowerAll(s)[3] == LowerAll(t)[3];
    }
    if |s| > 0 {
      LowerAllSlice(s, 1, |s|);
      LowerAllSlice(t, 1, |s|);
      HasBasenameCase(s[1..], t[1..], "lock");
    }
  }

  /** Changing the case of any letters never changes the verdict. */
  lemma ReservedIgnoresCase(s: string, t: string)
    requires EqualIgnoringCase(s, t)
    ensures IsReservedFilename(s) <==> IsReservedFilename(t)
  {
    ReservedMatchesRules(s);
    ReservedMatchesRules(t);
    RulesIgnoreCase(s, t);
  }

  lemma RulesIgnoreCase(s: string, t: string)
    requires EqualIgnoringCase(s, t)
    ensures ReservedByRules(s) <==> ReservedByRules(t)
  {
    RuleTestsIgnoreCase(s, t);
  }

  /** The device names of the rule list are reserved, with or without an extension. */
  lemma {:induction false} DeviceNamesReserved(name: string, ext: string)
    requires name in ["aux", "dev", "con", "nul", "null", "prn", "stdin", "stdout", "stderr", "__macosx"]
    requires ext == [] || ext[0] == '.'
    ensures IsReservedFilename(name + ext)
  {
    var s := name + ext;
    assert s[..|name|] == name;
    assert HasBasename(s, name);
    ReservedMatchesRules(s);
  }

  /** `com` and `lpt` followed by a digit are reserved, whatever comes next. */
  lemma {:induction false} PortNamesReserved(port: string, d: char, rest: string)
    requires port == "com" || port == "lpt"
    requires IsDigit(d)
    ensures IsReservedFilename(port + [d] + rest)
  {
    var s := port + [d] + rest;
    assert s[..3] == port;
    assert s[3] == d;
    ReservedMatchesRules(s);
  }

  /** Device names are reserved in any case, bare or with an extension. */
  lemma DeviceExamples()
    ensures IsReservedFilename("CON") && IsReservedFilename("Aux.txt")
  {
    assert "CON"[..3] == "CON";
    assert LowerAll("CON") == "con";
    assert "Aux.txt"[..3] == "Aux";
    assert LowerAll("Aux") == "aux";
  }

  /** A numbered port name is reserved. */
  lemma PortExample()
    ensures IsReservedFilename("LPT9")
  {
    assert "LPT9"[..3] == "LPT";
    assert LowerAll("LPT") == "lpt";
  }

  /** Lock files and desktop.ini backups are reserved. */
  lemma DotfileExamples()
    ensures IsReservedFilename(".lock") && IsReservedFilename("desktop.ini.bak")
  {
    assert ".lock"[1..] == "lock";
    assert "lock"[..4] == "lock";
    assert "desktop.ini.bak"[..11] == "desktop.ini";
  }

  /** Leading and trailing markers and the `_vti_` infix. */
  lemma ReservedMarkerExamples()
    ensures IsReservedFilename("~temp") && IsReservedFilename("file~") && IsReservedFilename("-rf")
    ensures IsReservedFilename("x_vti_y")
  {
    assert "file~"[4..] == "~";
    assert "x_vti_y"[1..][..5] == "_vti_";
    assert InfixAt("x_vti_y", "_vti_", 1);
  }

  /** `_vti_` must be followed by at least one byte (the loop bound `i < slen - len`). */
  lemma VtiAtEndNotReserved()
    ensures !IsReservedFilename("x_vti_")
  {
    assert "x_vti_"[..5] == "x_vti";
    assert LowerAll("x_vti") != LowerAll("_vti_") by {
      assert LowerAll("x_vti")[0] == 'x';
    }
    assert "x_vti_"[5..] == "_";
    assert LowerAll("_") == "_";
  }

  /** A byte that differs, ignoring case, within the prefix's length rules the prefix out. */
  lemma NotPrefixAt(s: string, p: string, j: nat)
    requires j < |p| && j < |s| && ToLower(s[j]) != ToLower(p[j])
    ensures !HasPrefix(s, p)
  {
    if |p| <= |s| {
      assert LowerAll(s[..|p|])[j] != LowerAll(p)[j];
    }
  }

  /** A byte that differs, ignoring case, within the postfix's length rules the postfix out. */
  lemma NotPostfixAt(s: string, p: string, j: nat)
    requires j < |p| <= |s| && ToLower(s[|s| - |p| + j]) != ToLower(p[j])
    ensures !HasPostfix(s, p)
  {
    assert LowerAll(s[|s| - |p|..])[j] != LowerAll(p)[j];
  }

  /** The `.ds_store` test sits after a `return` and is never reached. */
  lemma DsStoreNotReserved()
    ensures !IsReservedFilename(".ds_store")
  {
    var s := ".ds_store";
    forall i | 0 <= i < 4 ensures !HasPrefix(s[i..], "_vti_") {
      NotPrefixAt(s[i..], "_vti_", if i == 3 then 1 else 0);
    }
    NotPostfixAt(s, "$", 0);
    NotPostfixAt(s, "~", 0);
    assert s[1..] == "ds_store";
    NotPrefixAt(s[1..], "lock", 0);
  }

  /** Names that merely resemble reserved ones are accepted. */
  lemma LookAlikesNotReserved()
    ensures !IsReservedFilename("COM") && !IsReservedFilename("console")
  {
    NotPostfixAt("COM", "$", 0);
    NotPostfixAt("COM", "~", 0);
    NotPrefixAt("COM", "con", 2);
    var s := "console";
    forall i | 0 <= i < 2 ensures !HasPrefix(s[i..], "_vti_") {
      NotPrefixAt(s[i..], "_vti_", 0);
    }
    NotPostfixAt(s, "$", 0);
    NotPostfixAt(s, "~", 0);
    NotPrefixAt(s, "com", 2);
  }
}
