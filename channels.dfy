/**
 * The gperf-generated recognizer `SystemChannelRecognizer` of
 * system_channels.hashcheck.cpp: a perfect hash over the 15 spellings of
 * the standard channels, and the keyword table it indexes.
 */
module SystemChannels {
  import opened CStrings

  datatype ChannelIdentifier = ChannelIdentifier(name: string, channel: int)

  const MinWordLength: nat := 1
  const MaxWordLength: nat := 11
  const MaxHashValue: nat := 24

  /** `asso_values`: 25 for every byte except the nine listed. */
  function AssoValue(c: char): nat {
    match c
    case '+' => 9
    case '-' => 4
    case '/' => 0
    case '1' => 5
    case '2' => 0
    case 'C' => 15
    case 'N' => 10
    case 'c' => 5
    case 'e' => 5
    case 'l' => 15
    case 'n' => 0
    case 'o' => 0
    case _ => 25
  }

  /**
   * `hash(str, len)`: the length, plus the value of byte 8 for lengths the
   * `switch` sends to its `default` label, plus the value of byte 0.
   */
  function Hash(str: string, len: nat): nat
    requires len == 0 || len > 8 ==> 8 <= |str|
  {
    if 1 <= len <= 8 then len + AssoValue(At(str, 0))
    else len + AssoValue(At(str, 8)) + AssoValue(At(str, 0))
  }

  /** `wordlist`: the keyword table, `None` for the empty slots. */
  const WordList: seq<Option<ChannelIdentifier>> := [
    None,
    Some(ChannelIdentifier("2", 2)),
    None,
    Some(ChannelIdentifier("nul", 3)),
    Some(ChannelIdentifier("nul:", 3)),
    Some(ChannelIdentifier("-", 1)),
    Some(ChannelIdentifier("1", 1)),
    None,
    Some(ChannelIdentifier("con", 2)),
    Some(ChannelIdentifier("con:", 2)),
    Some(ChannelIdentifier("+", 2)),
    Some(ChannelIdentifier("/dev/stdout", 1)),
    None,
    Some(ChannelIdentifier("NUL", 3)),
    Some(ChannelIdentifier("NUL:", 3)),
    None,
    Some(ChannelIdentifier("/dev/stderr", 2)),
    None,
    Some(ChannelIdentifier("CON", 2)),
    Some(ChannelIdentifier("CON:", 2)),
    None, None, None, None,
    Some(ChannelIdentifier("/dev/null", 3))
  ]

  /**
   * `in_word_set(str, len)`: the table entry at the hash, provided the
   * length is in range and the entry's name equals `str` byte for byte
   * (`*str == *s && !strcmp(str + 1, s + 1)`).
   */
  function InWordSet(str: string, len: nat): (r: Option<ChannelIdentifier>)
    requires NoNul(str) && (len > 8 ==> 8 <= |str|)
    ensures r.Some? ==> MinWordLength <= len <= MaxWordLength
    ensures r.Some? ==> r.value.name == str && Some(r.value) in WordList
  {
    if MinWordLength <= len <= MaxWordLength then
      var key := Hash(str, len);
      if key <= MaxHashValue then
        match WordList[key]
        case None => None
        case Some(entry) =>
          if At(str, 0) == At(entry.name, 0) && str == entry.name then Some(entry) else None
      else None
    else None
  }

  /** The spellings the recognizer knows, each with its channel, in the order of the grammar file. */
  const Keywords: seq<(string, int)> := [
    ("1", 1), ("2", 2), ("nul", 3), ("NUL", 3), ("nul:", 3), ("NUL:", 3),
    ("con", 2), ("CON", 2), ("con:", 2), ("CON:", 2), ("-", 1), ("+", 2),
    ("/dev/stdout", 1), ("/dev/stderr", 2), ("/dev/null", 3)
  ]

  /** Every occupied slot holds a keyword whose hash is that slot: the hash is perfect. */
  lemma HashIsPerfect()
    ensures forall key :: 0 <= key < |WordList| && WordList[key].Some? ==>
      var w := WordList[key].value;
      MinWordLength <= |w.name| <= MaxWordLength && Hash(w.name, |w.name|) == key
      && (w.name, w.channel) in Keywords
  {
  }

  /** Whatever the recognizer finds is a keyword, reported with its channel. */
  lemma FoundIsKeyword(str: string, len: nat)
    requires NoNul(str) && (len > 8 ==> 8 <= |str|)
    requires InWordSet(str, len).Some?
    ensures (str, InWordSet(str, len).value.channel) in Keywords
  {
    var r := InWordSet(str, len).value;
    HashIsPerfect();
    var key :| 0 <= key < |WordList| && WordList[key] == Some(r);
  }

  /** The keyword at index `k` is found when looked up with its own length, with its channel. */
  predicate Found(k: nat)
    requires k < |Keywords|
  {
    NoNul(Keywords[k].0) &&
    InWordSet(Keywords[k].0, |Keywords[k].0|) == Some(ChannelIdentifier(Keywords[k].0, Keywords[k].1))
  }

  lemma DigitsAndNulFound(k: nat)
    requires k < 6
    ensures Found(k)
  {
    if k < 3 {
      assert k == 0 || k == 1 || k == 2;
    } else {
      assert k == 3 || k == 4 || k == 5;
    }
  }

  lemma ConAndDashesFound(k: nat)
    requires 6 <= k < 12
    ensures Found(k)
  {
    if k < 9 {
      assert k == 6 || k == 7 || k == 8;
    } else {
      assert k == 9 || k == 10 || k == 11;
    }
  }

  lemma DevicePathsFound(k: nat)
    requires 12 <= k < |Keywords|
    ensures Found(k)
  {
    assert k == 12 || k == 13 || k == 14;
  }

  /** Every keyword is found when looked up with its own length, with its channel. */
  lemma AllKeywordsFound()
    ensures forall k :: 0 <= k < |Keywords| ==> Found(k)
  {
    forall k | 0 <= k < |Keywords| ensures Found(k) {
      if k < 6 {
        DigitsAndNulFound(k);
      } else if k < 12 {
        ConAndDashesFound(k);
      } else {
        DevicePathsFound(k);
      }
    }
  }

  /**
   * The recognizer finds a string, given its length, exactly when it is
   * one of the 15 keywords, and then reports that keyword's channel.
   */
  lemma InWordSetExactly(str: string, channel: int)
    requires NoNul(str)
    ensures InWordSet(str, |str|) == Some(ChannelIdentifier(str, channel)) <==> (str, channel) in Keywords
  {
    if InWordSet(str, |str|).Some? {
      FoundIsKeyword(str, |str|);
    }
    if (str, channel) in Keywords {
      AllKeywordsFound();
      var k :| 0 <= k < |Keywords| && Keywords[k] == (str, channel);
      assert Found(k);
    }
  }

  /** Lookup is case-sensitive: `Con` is not a keyword although `con` and `CON` are. */
  lemma MixedCaseRejected()
    ensures InWordSet("Con", 3).None? && InWordSet("Nul:", 4).None?
  {
  }
}
