/**
 * is_stdio.cc: `is_stdio_path` recognizes the spellings of the standard
 * streams and the DOS device names, ignoring case, and
 * `process_path_as_stdio` reports the outcome through an out-parameter.
 */
module StdioPath {
  import opened CStrings
  import SystemChannels

  /** The `FILE *` alternative: `stdout`, `stderr` or `(FILE *)nullptr` for the null device. */
  datatype FileHandle = StdoutFile | StderrFile | NullFile

  /** `std::variant<FILE *, const char *>`. */
  datatype StdioResult = Stream(handle: FileHandle) | PathName(path: string)

  predicate HasPortPrefix(path: string) {
    StartsWithIgnoringCase(path, "com") || StartsWithIgnoringCase(path, "lpt")
  }

  /**
   * The inputs the function can handle: for a bare three-byte `com` or
   * `lpt` the digit test matches the terminator and the next test reads
   * the byte after it.
   */
  predicate ReadsWithinString(path: string) {
    !(|path| == 3 && HasPortPrefix(path))
  }

  // The literals each rule compares with, all lower-case.
  const StdoutNames: set<string> := {"/dev/stdout", "stdout", "1"}
  const StderrNames: set<string> := {"/dev/stderr", "stderr", "+", "2"}
  const DeviceNames: set<string> := {"con", "con:", "aux", "aux:", "prn", "prn:"}
  const NullNames: set<string> := {"/dev/null", "nul", "nul:"}

  /**
   * `is_stdio_path(path, dash_as_stdout, con_as_stderr)`: the rules in
   * source order. Every literal the source compares with is lower-case,
   * so `strieq(path, lit)` is `l == lit` on the lowered input `l`
   * (`EqualIgnoringCaseLiteral`), and a rule's alternatives joined by `||`
   * become membership in that rule's set of literals.
   */
  function IsStdioPath(path: string, dashAsStdout: bool, conAsStderr: bool): StdioResult
    requires ReadsWithinString(path)
  {
    StdioRules(path, LowerAll(path), dashAsStdout, conAsStderr)
  }

  /** The rule chain of `is_stdio_path`, given the input `path` and its lowered copy `l`. */
  function StdioRules(path: string, l: string, dashAsStdout: bool, conAsStderr: bool): StdioResult
    requires ReadsWithinString(path)
  {
    var device := if conAsStderr then StderrFile else StdoutFile;
    if l in StdoutNames then
      Stream(StdoutFile)
    else if l in StderrNames then
      Stream(StderrFile)
    else if l == "-" then
      Stream(if dashAsStdout then StdoutFile else StderrFile)
    else if |path| <= 5 && l in DeviceNames then
      Stream(device)
    else if |path| <= 5 && HasPortPrefix(path)
         && (var offset := if StrChr("123456789", At(path, 3)) then 4 else 3;
             At(path, offset) == NUL || path[offset..] == ":") then
      Stream(device)
    else if l in NullNames then
      Stream(NullFile)
    else
      PathName(path)
  }

  // ---------------------------------------------------------------------
  // The recognized names, independent of the rule order

  /** `l` starts with `com` or `lpt`. */
  predicate IsPortStem(l: string) {
    3 <= |l| && ((l[0] == 'c' && l[1] == 'o' && l[2] == 'm') || (l[0] == 'l' && l[1] == 'p' && l[2] == 't'))
  }

  /** A lower-case port name: `com` or `lpt`, an optional digit 1-9, an optional `:`. */
  predicate IsPortName(l: string) {
    3 <= |l| <= 5 && IsPortStem(l)
    && (|l| == 3
        || (|l| == 4 && ('1' <= l[3] <= '9' || l[3] == ':'))
        || (|l| == 5 && '1' <= l[3] <= '9' && l[4] == ':'))
  }

  /** The stream a lower-cased name stands for, if any. */
  function StreamForName(l: string, dashAsStdout: bool, conAsStderr: bool): Option<FileHandle> {
    if l in StdoutNames then Some(StdoutFile)
    else if l in StderrNames then Some(StderrFile)
    else if l == "-" then Some(if dashAsStdout then StdoutFile else StderrFile)
    else if l in DeviceNames || IsPortName(l) then Some(if conAsStderr then StderrFile else StdoutFile)
    else if l in NullNames then Some(NullFile)
    else None
  }

  lemma LowerAllFixesLower(s: string)
    requires forall i :: 0 <= i < |s| ==> !IsUpper(s[i])
    ensures LowerAll(s) == s
  {
  }

  /** Comparing with a lower-case literal ignoring case compares the lowered input. */
  lemma EqualIgnoringCaseLiteral(path: string, lit: string)
    requires forall i :: 0 <= i < |lit| ==> !IsUpper(lit[i])
    ensures EqualIgnoringCase(path, lit) <==> LowerAll(path) == lit
  {
    LowerAllFixesLower(lit);
  }

  lemma PortPrefixLowered(path: string)
    ensures HasPortPrefix(path) <==> IsPortStem(LowerAll(path))
  {
    StartsWithIgnoringCaseLower(path, "com");
    StartsWithIgnoringCaseLower(path, "lpt");
    var l := LowerAll(path);
    if 3 <= |l| {
      assert l[..3] == "com" <==> l[0] == 'c' && l[1] == 'o' && l[2] == 'm' by {
        if l[0] == 'c' && l[1] == 'o' && l[2] == 'm' {
          assert l[..3] == [l[0], l[1], l[2]];
        }
      }
      assert l[..3] == "lpt" <==> l[0] == 'l' && l[1] == 'p' && l[2] == 't' by {
        if l[0] == 'l' && l[1] == 'p' && l[2] == 't' {
          assert l[..3] == [l[0], l[1], l[2]];
        }
      }
    }
  }

  /** The digit test of the port-name branch, terminator included. */
  lemma PortDigitTest(c: char)
    ensures StrChr("123456789", c) <==> c == NUL || '1' <= c <= '9'
  {
    if '1' <= c <= '9' {
      assert "123456789"[c as int - '1' as int] == c;
    }
  }

  lemma PortBranch4(path: string)
    requires IsCString(path) && |path| == 4 && HasPortPrefix(path)
    ensures (StrChr("123456789", path[3]) || path[3..] == ":") <==> IsPortName(LowerAll(path))
  {
    var l := LowerAll(path);
    PortPrefixLowered(path);
    PortDigitTest(path[3]);
    assert path[3] != NUL && l[3] == ToLower(path[3]);
    assert path[3..] == [path[3]];
  }

  lemma PortBranch5(path: string)
    requires IsCString(path) && |path| == 5 && HasPortPrefix(path)
    ensures (if StrChr("123456789", path[3]) then path[4..] == ":" else path[3..] == ":")
      <==> IsPortName(LowerAll(path))
  {
    var l := LowerAll(path);
    PortPrefixLowered(path);
    PortDigitTest(path[3]);
    assert path[3] != NUL && l[3] == ToLower(path[3]);
    assert path[4] != NUL && l[4] == ToLower(path[4]);
    assert path[4..] == [path[4]];
    assert |path[3..]| == 2;
  }

  /** The port-name branch of the source, stated on the lowered name. */
  lemma PortBranch(path: string)
    requires IsCString(path) && ReadsWithinString(path) && |path| <= 5 && HasPortPrefix(path)
    ensures (var offset := if StrChr("123456789", At(path, 3)) then 4 else 3;
             At(path, offset) == NUL || path[offset..] == ":") <==> IsPortName(LowerAll(path))
  {
    PortPrefixLowered(path);
    if |path| == 4 {
      PortBranch4(path);
    } else {
      PortBranch5(path);
    }
  }

  /** The rules' literal sets are pairwise disjoint, and none holds a port name. */
  lemma NameClasses(l: string)
    ensures l in NullNames ==> l !in StdoutNames && l !in StderrNames && l != "-" && l !in DeviceNames && !IsPortStem(l)
    ensures l in DeviceNames ==> l !in StdoutNames && l !in StderrNames && l != "-" && !IsPortStem(l)
    ensures l == "-" ==> l !in StdoutNames && l !in StderrNames
    ensures l in StderrNames ==> l !in StdoutNames && !IsPortStem(l)
    ensures l in StdoutNames ==> !IsPortStem(l)
  {
  }

  /** A name from the rules' literal sets takes the stream its set stands for. */
  lemma RulesForNamed(path: string, l: string, dashAsStdout: bool, conAsStderr: bool)
    requires ReadsWithinString(path) && |l| == |path| && !HasPortPrefix(path)
    requires l in StdoutNames + StderrNames + DeviceNames + NullNames + {"-"}
    ensures StdioRules(path, l, dashAsStdout, conAsStderr) == Stream(StreamForName(l, dashAsStdout, conAsStderr).value)
  {
    NameClasses(l);
  }

  lemma ByNamePort(path: string, dashAsStdout: bool, conAsStderr: bool)
    requires IsCString(path) && ReadsWithinString(path)
    requires IsPortName(LowerAll(path))
    ensures IsStdioPath(path, dashAsStdout, conAsStderr) == Stream(if conAsStderr then StderrFile else StdoutFile)
  {
    var l := LowerAll(path);
    NameClasses(l);
    PortPrefixLowered(path);
    PortBranch(path);
    assert StdioRules(path, l, dashAsStdout, conAsStderr) == Stream(if conAsStderr then StderrFile else StdoutFile);
  }

  lemma ByNameOther(path: string, dashAsStdout: bool, conAsStderr: bool)
    requires IsCString(path) && ReadsWithinString(path)
    requires StreamForName(LowerAll(path), dashAsStdout, conAsStderr).None?
    ensures IsStdioPath(path, dashAsStdout, conAsStderr) == PathName(path)
  {
    var l := LowerAll(path);
    if |path| <= 5 && HasPortPrefix(path) {
      PortBranch(path);
    }
    assert StdioRules(path, l, dashAsStdout, conAsStderr) == PathName(path);
  }

  /**
   * `is_stdio_path` returns a stream exactly for the recognized names,
   * ignoring case, and otherwise hands the path back unchanged: no two
   * rules overlap, so their order does not matter.
   */
  lemma IsStdioPathByName(path: string, dashAsStdout: bool, conAsStderr: bool)
    requires IsCString(path) && ReadsWithinString(path)
    ensures IsStdioPath(path, dashAsStdout, conAsStderr) ==
      match StreamForName(LowerAll(path), dashAsStdout, conAsStderr)
      case Some(h) => Stream(h)
      case None => PathName(path)
  {
    var l := LowerAll(path);
    if l in StdoutNames + StderrNames + DeviceNames + NullNames + {"-"} {
      NameClasses(l);
      PortPrefixLowered(path);
      RulesForNamed(path, l, dashAsStdout, conAsStderr);
    } else if IsPortName(l) {
      ByNamePort(path, dashAsStdout, conAsStderr);
    } else {
      ByNameOther(path, dashAsStdout, conAsStderr);
    }
  }

  /** Changing the case of letters never changes the verdict. */
  lemma IsStdioPathIgnoresCase(s: string, t: string, dashAsStdout: bool, conAsStderr: bool)
    requires IsCString(s) && IsCString(t) && ReadsWithinString(s) && ReadsWithinString(t)
    requires EqualIgnoringCase(s, t)
    ensures IsStdioPath(s, dashAsStdout, conAsStderr).Stream? <==> IsStdioPath(t, dashAsStdout, conAsStderr).Stream?
    ensures IsStdioPath(s, dashAsStdout, conAsStderr).Stream? ==>
      IsStdioPath(s, dashAsStdout, conAsStderr) == IsStdioPath(t, dashAsStdout, conAsStderr)
  {
    IsStdioPathByName(s, dashAsStdout, conAsStderr);
    IsStdioPathByName(t, dashAsStdout, conAsStderr);
  }

  /**
   * `process_path_as_stdio`: with the default options, stores the handle
   * and returns 1 when a `FILE *` came back (the null device storing
   * nullptr), otherwise stores nullptr and returns 0.
   */
  method ProcessPathAsStdio(path: string) returns (rc: int, stored: FileHandle)
    requires IsCString(path) && ReadsWithinString(path)
    ensures rc == 1 || rc == 0
    ensures rc == 1 <==> StreamForName(LowerAll(path), true, true).Some?
    ensures rc == 1 ==> stored == StreamForName(LowerAll(path), true, true).value
    ensures rc == 0 ==> stored == NullFile
  {
    IsStdioPathByName(path, true, true);
    var rv := IsStdioPath(path, true, true);
    if rv.Stream? {
      return 1, rv.handle;
    }
    return 0, NullFile;
  }

  /** The handle a channel number of the recognizer's table stands for. */
  function ChannelHandle(channel: int): FileHandle {
    if channel == 1 then StdoutFile else if channel == 2 then StderrFile else NullFile
  }

  /** A C string whose lowered copy is `l` is handled as `l` is. */
  lemma LoweredKeyword(w: string, l: string, channel: int)
    requires LowerAll(w) == l && !IsPortStem(l)
    requires StreamForName(l, true, true) == Some(ChannelHandle(channel))
    requires forall i :: 0 <= i < |l| ==> l[i] != NUL && l[i] as int < 224
    ensures IsCString(w) && ReadsWithinString(w)
    ensures StreamForName(LowerAll(w), true, true) == Some(ChannelHandle(channel))
  {
    PortPrefixLowered(w);
  }

  /** What `KeywordLowered` states of keyword `k`. */
  predicate KeywordNamesChannel(k: nat)
    requires k < |SystemChannels.Keywords|
  {
    var w := SystemChannels.Keywords[k].0;
    IsCString(w) && ReadsWithinString(w)
    && StreamForName(LowerAll(w), true, true) == Some(ChannelHandle(SystemChannels.Keywords[k].1))
  }

  lemma KeywordLoweredDigits(k: nat)
    requires 0 <= k < 3
    ensures KeywordNamesChannel(k)
  {
    var w := SystemChannels.Keywords[k].0;
    if k == 0 {
      assert w == "1";
      LowerAllFixesLower(w);
      LoweredKeyword(w, "1", 1);
    } else if k == 1 {
      assert w == "2";
      LowerAllFixesLower(w);
      LoweredKeyword(w, "2", 2);
    } else if k == 2 {
      assert w == "nul";
      LowerAllFixesLower(w);
      LoweredKeyword(w, "nul", 3);
    } else {
      assert false;
    }
  }

  lemma KeywordLoweredNul(k: nat)
    requires 3 <= k < 6
    ensures KeywordNamesChannel(k)
  {
    if k == 3 {
      KeywordLoweredNulUpper();
    } else if k == 4 {
      KeywordLoweredNulColon();
    } else {
      KeywordLoweredNulColonUpper();
    }
  }

  lemma KeywordLoweredNulUpper()
    ensures KeywordNamesChannel(3)
  {
    var w := SystemChannels.Keywords[3].0;
    assert w == "NUL" && LowerAll(w) == "nul";
    LoweredKeyword(w, "nul", 3);
  }

  lemma KeywordLoweredNulColon()
    ensures KeywordNamesChannel(4)
  {
    var w := SystemChannels.Keywords[4].0;
    assert w == "nul:";
    LowerAllFixesLower(w);
    LoweredKeyword(w, "nul:", 3);
  }

  lemma KeywordLoweredNulColonUpper()
    ensures KeywordNamesChannel(5)
  {
    var w := SystemChannels.Keywords[5].0;
    assert w == "NUL:" && LowerAll(w) == "nul:";
    LoweredKeyword(w, "nul:", 3);
  }

  lemma KeywordLoweredCon(k: nat)
    requires 6 <= k < 10
    ensures KeywordNamesChannel(k)
  {
    var w := SystemChannels.Keywords[k].0;
    if k == 6 {
      assert w == "con";
      LowerAllFixesLower(w);
      LoweredKeyword(w, "con", 2);
    } else if k == 7 {
      assert w == "CON" && LowerAll(w) == "con";
      LoweredKeyword(w, "con", 2);
    } else if k == 8 {
      assert w == "con:";
      LowerAllFixesLower(w);
      LoweredKeyword(w, "con:", 2);
    } else if k == 9 {
      assert w == "CON:" && LowerAll(w) == "con:";
      LoweredKeyword(w, "con:", 2);
    } else {
      assert false;
    }
  }

  lemma KeywordLoweredSigns(k: nat)
    requires 10 <= k < 12
    ensures KeywordNamesChannel(k)
  {
    var w := SystemChannels.Keywords[k].0;
    if k == 10 {
      assert w == "-";
      LowerAllFixesLower(w);
      LoweredKeyword(w, "-", 1);
    } else if k == 11 {
      assert w == "+";
      LowerAllFixesLower(w);
      LoweredKeyword(w, "+", 2);
    } else {
      assert false;
    }
  }

  lemma KeywordLoweredDevStdout()
    ensures KeywordNamesChannel(12)
  {
    var w := SystemChannels.Keywords[12].0;
    assert w == "/dev/stdout";
    LowerAllFixesLower(w);
    LoweredKeyword(w, "/dev/stdout", 1);
  }

  lemma KeywordLoweredDevStderr()
    ensures KeywordNamesChannel(13)
  {
    var w := SystemChannels.Keywords[13].0;
    assert w == "/dev/stderr";
    LowerAllFixesLower(w);
    LoweredKeyword(w, "/dev/stderr", 2);
  }

  lemma KeywordLoweredDevNull()
    ensures KeywordNamesChannel(14)
  {
    var w := SystemChannels.Keywords[14].0;
    assert w == "/dev/null";
    LowerAllFixesLower(w);
    LoweredKeyword(w, "/dev/null", 3);
  }

  /** The keywords of the recognizer's table, lowered, name the stream of their channel. */
  lemma KeywordLowered(k: nat)
    requires k < |SystemChannels.Keywords|
    ensures KeywordNamesChannel(k)
  {
    if k < 3 {
      KeywordLoweredDigits(k);
    } else if k < 6 {
      KeywordLoweredNul(k);
    } else if k < 10 {
      KeywordLoweredCon(k);
    } else if k < 12 {
      KeywordLoweredSigns(k);
    } else if k == 12 {
      KeywordLoweredDevStdout();
    } else if k == 13 {
      KeywordLoweredDevStderr();
    } else {
      KeywordLoweredDevNull();
    }
  }

  /**
   * With the default options, every spelling in the recognizer's keyword
   * table is recognized by `is_stdio_path` as the stream of its channel.
   */
  lemma KeywordsAgreeWithStdioPath(k: nat)
    requires k < |SystemChannels.Keywords|
    ensures var w := SystemChannels.Keywords[k].0;
      ReadsWithinString(w) && IsStdioPath(w, true, true) == Stream(ChannelHandle(SystemChannels.Keywords[k].1))
  {
    KeywordLowered(k);
    IsStdioPathByName(SystemChannels.Keywords[k].0, true, true);
  }
}
