/**
 * Crow's `base64encode`, `base64encode_urlsafe` and `base64decode`, as
 * embedded in sanitize-filepath.c: the alphabets of sections 4 and 5 of
 * RFC 4648, `=` padding on output, and a decoder that takes either
 * alphabet, padded or not, mapping any other character to 0.
 *
 * Bytes are integers below 256. Each mask-and-shift of the source is
 * written as the arithmetic it computes on such a byte: `(b & 0xFC) >> 2`
 * is `b / 4`, `(b & 0x03) << 4` is `b % 4 * 16`, `(b & 0xF0) >> 4` is
 * `b / 16`, `(b & 0x0F) << 2` is `b % 16 * 4`, `(b & 0xC0) >> 6` is
 * `b / 64` and `b & 0x3F` is `b % 64`; on the decoding side, with sextets
 * below 64, `(odd << 2) | ((even & 0x30) >> 4)` is `odd * 4 + even / 16`,
 * `((even & 0x0F) << 4) | ((odd & 0x3C) >> 2)` is
 * `even % 16 * 16 + odd / 4`, and `((odd & 0x03) << 6) | even` is
 * `odd % 4 * 64 + even`.
 */
module CrowBase64 {
  import CStrings

  type byte = x: int | 0 <= x < 256

  /**
   * Position `i` of the alphabet: `A`-`Z`, `a`-`z`, `0`-`9`, then `+` and
   * `/`, or `-` and `_` for the URL-safe one.
   */
  function AlphabetChar(i: nat, urlSafe: bool): char
    requires i < 64
  {
    if i < 26 then ('A' as int + i) as char
    else if i < 52 then ('a' as int + (i - 26)) as char
    else if i < 62 then ('0' as int + (i - 52)) as char
    else if i == 62 then (if urlSafe then '-' else '+')
    else (if urlSafe then '_' else '/')
  }

  /** The default `key` of `base64encode` (section 4 of RFC 4648). */
  const StdAlphabet: string := seq(64, i requires 0 <= i < 64 => AlphabetChar(i, false))

  /** The `key` of `base64encode_urlsafe` (section 5 of RFC 4648). */
  const UrlAlphabet: string := seq(64, i requires 0 <= i < 64 => AlphabetChar(i, true))

  /**
   * The constants spell the two alphabets of RFC 4648 (sections 4 and 5):
   * upper-case letters, lower-case letters, digits, then `+ /` or `- _`.
   */
  lemma AlphabetsSpelled()
    ensures |StdAlphabet| == 64 && |UrlAlphabet| == 64
    ensures StdAlphabet[0] == 'A' && StdAlphabet[25] == 'Z' && StdAlphabet[26] == 'a' && StdAlphabet[51] == 'z'
    ensures StdAlphabet[52] == '0' && StdAlphabet[61] == '9' && StdAlphabet[62] == '+' && StdAlphabet[63] == '/'
    ensures UrlAlphabet[..62] == StdAlphabet[..62] && UrlAlphabet[62] == '-' && UrlAlphabet[63] == '_'
  {
  }

  /**
   * The decoder's `key` lambda: the value of a character in either
   * alphabet, and 0 for anything else (`=` included).
   */
  function SextetOf(c: char): (v: nat)
    ensures v < 64
  {
    if 'A' <= c <= 'Z' then c as int - 'A' as int
    else if 'a' <= c <= 'z' then c as int - 'a' as int + 26
    else if '0' <= c <= '9' then c as int - '0' as int + 52
    else if c == '+' || c == '-' then 62
    else if c == '/' || c == '_' then 63
    else 0
  }

  /** A key the decoder inverts: 64 characters, none of them `=`, each read back as its position. */
  predicate Inverts(key: string) {
    |key| == 64 && forall i :: 0 <= i < 64 ==> SextetOf(key[i]) == i && key[i] != '='
  }

  /** Both alphabets of the source are read back by the decoder. */
  lemma AlphabetsInvert()
    ensures Inverts(StdAlphabet) && Inverts(UrlAlphabet)
  {
  }

  /** The four characters written for three input bytes. */
  function Quad(b0: byte, b1: byte, b2: byte, key: string): string
    requires |key| >= 64
  {
    [key[b0 / 4], key[b0 % 4 * 16 + b1 / 16], key[b1 % 16 * 4 + b2 / 64], key[b2 % 64]]
  }

  /** The padded group written for one trailing byte. */
  function Single(b0: byte, key: string): string
    requires |key| >= 64
  {
    [key[b0 / 4], key[b0 % 4 * 16], '=', '=']
  }

  /** The padded group written for two trailing bytes. */
  function Double(b0: byte, b1: byte, key: string): string
    requires |key| >= 64
  {
    [key[b0 / 4], key[b0 % 4 * 16 + b1 / 16], key[b1 % 16 * 4], '=']
  }

  /**
   * What `base64encode(data, size, key)` returns for the `size` bytes of
   * `data`: one group of four characters per three bytes, the last group
   * padded with `=`; its length is `(size + 2) / 3 * 4`.
   */
  function Encoded(data: seq<byte>, key: string): (r: string)
    requires |key| >= 64
    ensures |r| == (|data| + 2) / 3 * 4
    decreases |data|
  {
    if |data| >= 3 then Quad(data[0], data[1], data[2], key) + Encoded(data[3..], key)
    else if |data| == 2 then Double(data[0], data[1], key)
    else if |data| == 1 then Single(data[0], key)
    else []
  }

  /**
   * The output size `base64decode` computes from the input length:
   * unpadded inputs of length 2 or 3 modulo 4 end in a short group, `==`
   * or `=` in the second-to-last or last place takes 2 or 1 bytes off the
   * last group. An input of fewer than two characters decodes to no
   * bytes, where the source looks for padding before it (see
   * `DecodedSizeAsWritten`).
   */
  function DecodedSize(data: string): (n: nat)
  {
    var size := |data|;
    if size % 4 == 2 then size / 4 * 3 + 1
    else if size % 4 == 3 then size / 4 * 3 + 2
    else if size < 2 then 0
    else if data[size - 2] == '=' then size / 4 * 3 - 2
    else if data[size - 1] == '=' then size / 4 * 3 - 1
    else size / 4 * 3
  }

  /** How many input characters decoding `n` bytes reads. */
  function Span(n: nat): nat {
    n / 3 * 4 + (if n % 3 == 2 then 3 else if n % 3 == 1 then 2 else 0)
  }

  /** Decoding never reads past the input. */
  lemma SpanOfDecodedSize(data: string)
    ensures Span(DecodedSize(data)) <= |data|
  {
  }

  /** The three bytes the decoder builds from a full group of four characters. */
  function GroupBytes(g: string): seq<byte>
    requires |g| >= 4
  {
    var a, b, c, d := SextetOf(g[0]), SextetOf(g[1]), SextetOf(g[2]), SextetOf(g[3]);
    [a * 4 + b / 16, b % 16 * 16 + c / 4, c % 4 * 64 + d]
  }

  /** The bytes decoded from the first `Span(size)` characters of `data`. */
  function DecodedBody(data: string, size: nat): (r: seq<byte>)
    requires Span(size) <= |data|
    ensures |r| == size
    decreases size
  {
    if size >= 3 then GroupBytes(data) + DecodedBody(data[4..], size - 3)
    else if size == 2 then
      var a, b, c := SextetOf(data[0]), SextetOf(data[1]), SextetOf(data[2]);
      [a * 4 + b / 16, b % 16 * 16 + c / 4]
    else if size == 1 then
      var a, b := SextetOf(data[0]), SextetOf(data[1]);
      [a * 4 + b / 16]
    else []
  }

  /**
   * The size computation as the source writes it: `None` where the padding
   * test reads `data[size - 2]` before the input, which happens for
   * lengths 0 and 1.
   */
  function DecodedSizeAsWritten(data: string): (r: CStrings.Option<nat>)
    ensures |data| >= 2 ==> r == CStrings.Some(DecodedSize(data))
    ensures |data| < 2 ==> r.None?
  {
    var size := |data|;
    if size % 4 == 2 then CStrings.Some(size / 4 * 3 + 1)
    else if size % 4 == 3 then CStrings.Some(size / 4 * 3 + 2)
    else if size - 2 < 0 then CStrings.None
    else if data[size - 2] == '=' then CStrings.Some(size / 4 * 3 - 2)
    else if data[size - 1] == '=' then CStrings.Some(size / 4 * 3 - 1)
    else CStrings.Some(size / 4 * 3)
  }

  /** What `base64decode(data, size)` returns, with short inputs decoding to nothing. */
  function Decoded(data: string): (r: seq<byte>)
    ensures |r| == DecodedSize(data)
  {
    SpanOfDecodedSize(data);
    DecodedBody(data, DecodedSize(data))
  }

  // ---------------------------------------------------------------------
  // Round trip.

  /** The last one to three bytes of `data`: the group the encoding pads. */
  function LastGroup(data: seq<byte>): (t: seq<byte>)
    requires |data| >= 1
    ensures 1 <= |t| <= 3 && (|t| == 3 <==> |data| % 3 == 0) && (|t| == 1 <==> |data| % 3 == 1)
    decreases |data|
  {
    if |data| <= 3 then data else LastGroup(data[3..])
  }

  /** The last four characters of an encoding are the encoding of its last group. */
  lemma {:induction false} EncodedLast(data: seq<byte>, key: string)
    requires |key| >= 64 && |data| >= 1
    ensures var r := Encoded(data, key); |r| >= 4 && r[|r| - 4..] == Encoded(LastGroup(data), key)
    decreases |data|
  {
    if |data| <= 3 {
      assert |Encoded(data, key)| == 4;
    } else {
      var rest := data[3..];
      EncodedLast(rest, key);
      SuffixOfAppend(Quad(data[0], data[1], data[2], key), Encoded(rest, key), 4);
    }
  }

  /** The last `n` elements of `a + b` are those of `b` when `b` has that many. */
  lemma SuffixOfAppend<T>(a: seq<T>, b: seq<T>, n: nat)
    requires n <= |b|
    ensures (a + b)[|a + b| - n..] == b[|b| - n..]
  {
  }

  /** The padding of a last group of one to three bytes. */
  lemma GroupEnd(t: seq<byte>, key: string)
    requires Inverts(key) && 1 <= |t| <= 3
    ensures var g := Encoded(t, key);
      |g| == 4 && (g[3] == '=' <==> |t| != 3) && (g[2] == '=' <==> |t| == 1)
  {
    if |t| == 3 {
      assert Encoded(t, key) == Quad(t[0], t[1], t[2], key) + Encoded(t[3..], key);
    } else if |t| == 2 {
      assert Encoded(t, key) == Double(t[0], t[1], key);
    } else {
      assert Encoded(t, key) == Single(t[0], key);
    }
  }

  /** The last two characters of an encoding: `=` exactly where the source pads. */
  lemma EncodedEnd(data: seq<byte>, key: string)
    requires Inverts(key) && |data| >= 1
    ensures var r := Encoded(data, key);
      |r| >= 4 &&
      (r[|r| - 1] == '=' <==> |data| % 3 != 0) &&
      (r[|r| - 2] == '=' <==> |data| % 3 == 1)
  {
    EncodedLast(data, key);
    var r, t := Encoded(data, key), LastGroup(data);
    GroupEnd(t, key);
    var g := Encoded(t, key);
    assert r[|r| - 1] == g[3] && r[|r| - 2] == g[2];
  }

  /** The decoder recovers the size of an encoding's input. */
  lemma DecodedSizeOfEncoded(data: seq<byte>, key: string)
    requires Inverts(key) && |data| >= 1
    ensures |Encoded(data, key)| >= 2 && DecodedSize(Encoded(data, key)) == |data|
  {
    var r := Encoded(data, key);
    EncodedEnd(data, key);
    EncodedSizeArithmetic(|data|, |r|);
  }

  /** The arithmetic of `DecodedSizeOfEncoded`: the length of an encoding, seen by the decoder. */
  lemma EncodedSizeArithmetic(n: nat, e: nat)
    requires e == (n + 2) / 3 * 4
    ensures e % 4 == 0 &&
      (n % 3 == 1 ==> e / 4 * 3 - 2 == n) &&
      (n % 3 == 2 ==> e / 4 * 3 - 1 == n) &&
      (n % 3 == 0 ==> e / 4 * 3 == n)
  {
    var m := (n + 2) / 3;
    assert (n + 2) / 3 * 4 / 4 == m;
  }

  /** One group of four characters decodes back to its three bytes. */
  lemma QuadDecodes(b0: byte, b1: byte, b2: byte, key: string)
    requires Inverts(key)
    ensures GroupBytes(Quad(b0, b1, b2, key)) == [b0, b1, b2]
  {
    var q := Quad(b0, b1, b2, key);
    var a, b, c, d := b0 / 4, b0 % 4 * 16 + b1 / 16, b1 % 16 * 4 + b2 / 64, b2 % 64;
    assert SextetOf(q[0]) == a && SextetOf(q[1]) == b && SextetOf(q[2]) == c && SextetOf(q[3]) == d;
    assert b / 16 == b0 % 4 && b % 16 == b1 / 16 && c / 4 == b1 % 16 && c % 4 == b2 / 64;
  }

  /** A group padded after two bytes decodes back to them. */
  lemma DoubleDecodes(b0: byte, b1: byte, key: string)
    requires Inverts(key)
    ensures Span(2) <= 4 && DecodedBody(Double(b0, b1, key), 2) == [b0, b1]
  {
    QuadDecodes(b0, b1, 0, key);
    assert Double(b0, b1, key)[..3] == Quad(b0, b1, 0, key)[..3];
  }

  /** A group padded after one byte decodes back to it. */
  lemma SingleDecodes(b0: byte, key: string)
    requires Inverts(key)
    ensures Span(1) <= 4 && DecodedBody(Single(b0, key), 1) == [b0]
  {
    QuadDecodes(b0, 0, 0, key);
    assert Single(b0, key)[..2] == Quad(b0, 0, 0, key)[..2];
  }

  /** Decoding three more bytes reads one more full group. */
  lemma DecodedBodyStep(q: string, rest: string, n: nat)
    requires |q| == 4 && Span(n) <= |rest|
    ensures Span(n + 3) <= |q + rest|
    ensures DecodedBody(q + rest, n + 3) == GroupBytes(q) + DecodedBody(rest, n)
  {
    assert (q + rest)[4..] == rest;
  }

  /** The body of an encoding decodes back to the input. */
  lemma {:induction false} DecodedBodyOfEncoded(data: seq<byte>, key: string)
    requires Inverts(key)
    ensures Span(|data|) <= |Encoded(data, key)|
    ensures DecodedBody(Encoded(data, key), |data|) == data
    decreases |data|, 1
  {
    if |data| >= 3 {
      LeadingGroupDecodes(data, key);
    } else if |data| == 2 {
      assert Encoded(data, key) == Double(data[0], data[1], key);
      DoubleDecodes(data[0], data[1], key);
      assert data == [data[0], data[1]];
    } else if |data| == 1 {
      assert Encoded(data, key) == Single(data[0], key);
      SingleDecodes(data[0], key);
      assert data == [data[0]];
    }
  }

  /** The inductive step of `DecodedBodyOfEncoded`: a full leading group, then the rest. */
  lemma {:induction false} LeadingGroupDecodes(data: seq<byte>, key: string)
    requires Inverts(key) && |data| >= 3
    ensures Span(|data|) <= |Encoded(data, key)|
    ensures DecodedBody(Encoded(data, key), |data|) == data
    decreases |data|, 0
  {
    var q, rest := Quad(data[0], data[1], data[2], key), data[3..];
    DecodedBodyOfEncoded(rest, key);
    QuadDecodes(data[0], data[1], data[2], key);
    DecodedBodyStep(q, Encoded(rest, key), |rest|);
    assert Encoded(data, key) == q + Encoded(rest, key);
    assert data == [data[0], data[1], data[2]] + rest;
  }

  /**
   * `base64decode(base64encode(data, size, key))` gives back `data` for
   * either alphabet, whenever there is at least one byte to encode.
   */
  lemma DecodeEncode(data: seq<byte>, key: string)
    requires Inverts(key) && |data| >= 1
    ensures |Encoded(data, key)| >= 2 && Decoded(Encoded(data, key)) == data
  {
    DecodedSizeOfEncoded(data, key);
    DecodedBodyOfEncoded(data, key);
  }

  /**
   * The round trip for every input, the encoding of no bytes included,
   * once inputs shorter than two characters decode to nothing.
   */
  lemma DecodeEncodeAll(data: seq<byte>, key: string)
    requires Inverts(key)
    ensures Decoded(Encoded(data, key)) == data
  {
    if |data| >= 1 {
      DecodeEncode(data, key);
    }
  }

  /**
   * As written, decoding the encoding of no bytes, the empty string, reads
   * before it: the source has no defined result there.
   */
  lemma EmptyEncodingReadsBefore(key: string)
    requires |key| >= 64
    ensures Encoded([], key) == "" && DecodedSizeAsWritten(Encoded([], key)).None?
  {
  }

  /** Test vectors of section 10 of RFC 4648, encoded. */
  lemma RfcEncodings()
    ensures Encoded([102], StdAlphabet) == "Zg=="
    ensures Encoded([102, 111], StdAlphabet) == "Zm8="
    ensures Encoded([102, 111, 111], StdAlphabet) == "Zm9v"
  {
    assert Encoded([102, 111, 111], StdAlphabet) == Quad(102, 111, 111, StdAlphabet) + Encoded([], StdAlphabet);
  }

  /** A test vector of section 10 of RFC 4648 decoded, padded and with its padding dropped. */
  lemma RfcDecodings()
    ensures Decoded("Zm9vYg==") == [102, 111, 111, 98]
    ensures Decoded("Zm9vYg") == [102, 111, 111, 98]
  {
  }

  /** An encoding holds characters of its alphabet, then at most two `=`. */
  lemma {:induction false} EncodedChars(data: seq<byte>, key: string)
    requires |key| >= 64
    ensures var r := Encoded(data, key);
      forall k :: 0 <= k < |r| ==> r[k] in key[..64] || (r[k] == '=' && k >= |r| - 2)
    decreases |data|
  {
    var r := Encoded(data, key);
    if |data| >= 3 {
      EncodedChars(data[3..], key);
      var q := Quad(data[0], data[1], data[2], key);
      assert r == q + Encoded(data[3..], key);
      forall k | 0 <= k < |r|
        ensures r[k] in key[..64] || (r[k] == '=' && k >= |r| - 2)
      {
        if k < 4 {
          assert q[k] in key[..64];
        } else {
          assert r[k] == Encoded(data[3..], key)[k - 4];
        }
      }
    } else if |data| == 2 {
      assert key[data[0] / 4] in key[..64];
      assert key[data[0] % 4 * 16 + data[1] / 16] in key[..64];
      assert key[data[1] % 16 * 4] in key[..64];
    } else if |data| == 1 {
      assert key[data[0] / 4] in key[..64];
      assert key[data[0] % 4 * 16] in key[..64];
    }
  }

  // ---------------------------------------------------------------------
  // The routines.

  /** Writes the group for three bytes at `o`. */
  method PutQuad(a: array<char>, o: nat, b0: byte, b1: byte, b2: byte, key: string)
    requires |key| >= 64 && o + 4 <= a.Length
    modifies a
    ensures a[..o + 4] == old(a[..o]) + Quad(b0, b1, b2, key)
  {
    a[o] := key[b0 / 4];
    a[o + 1] := key[b0 % 4 * 16 + b1 / 16];
    a[o + 2] := key[b1 % 16 * 4 + b2 / 64];
    a[o + 3] := key[b2 % 64];
  }

  /** Writes the padded group for one trailing byte at `o`. */
  method PutSingle(a: array<char>, o: nat, b0: byte, key: string)
    requires |key| >= 64 && o + 4 <= a.Length
    modifies a
    ensures a[..o + 4] == old(a[..o]) + Single(b0, key)
  {
    a[o] := key[b0 / 4];
    a[o + 1] := key[b0 % 4 * 16];
    a[o + 2] := '=';
    a[o + 3] := '=';
  }

  /** Writes the padded group for two trailing bytes at `o`. */
  method PutDouble(a: array<char>, o: nat, b0: byte, b1: byte, key: string)
    requires |key| >= 64 && o + 4 <= a.Length
    modifies a
    ensures a[..o + 4] == old(a[..o]) + Double(b0, b1, key)
  {
    a[o] := key[b0 / 4];
    a[o + 1] := key[b0 % 4 * 16 + b1 / 16];
    a[o + 2] := key[b1 % 16 * 4];
    a[o + 3] := '=';
  }

  /** Splitting off the first group of an encoding. */
  lemma EncodedRest(data: seq<byte>, key: string)
    requires |key| >= 64 && |data| >= 3
    ensures Encoded(data, key) == Quad(data[0], data[1], data[2], key) + Encoded(data[3..], key)
  {
  }

  /** Moving one group from what is left to encode to what is written. */
  lemma Regroup<T>(done: seq<T>, group: seq<T>, rest: seq<T>, want: seq<T>)
    requires done + (group + rest) == want
    ensures (done + group) + rest == want
  {
    assert done + (group + rest) == (done + group) + rest;
  }

  /** Writes the padded last group for the one or two bytes of `data[i..]` at `o`, if any. */
  method PutLastGroup(a: array<char>, o: nat, data: seq<byte>, i: nat, key: string)
    requires |key| >= 64 && i <= |data| && |data| - i < 3 && o + |Encoded(data[i..], key)| == a.Length
    modifies a
    ensures a[..] == old(a[..o]) + Encoded(data[i..], key)
  {
    var size := |data| - i;
    if size == 1 {
      assert Encoded(data[i..], key) == Single(data[i], key);
      PutSingle(a, o, data[i], key);
    } else if size == 2 {
      assert Encoded(data[i..], key) == Double(data[i], data[i + 1], key);
      PutDouble(a, o, data[i], data[i + 1], key);
    }
  }

  /**
   * `base64encode(data, size, key)`: sizes the result to
   * `(size + 2) / 3 * 4`, writes one group per three bytes, then the padded
   * last group.
   */
  method Base64Encode(data: seq<byte>, key: string) returns (ret: string)
    requires |key| >= 64
    ensures ret == Encoded(data, key)
  {
    var a := new char[(|data| + 2) / 3 * 4];
    var size: nat, i: nat, o: nat := |data|, 0, 0;
    while size >= 3
      invariant i + size == |data| && o + |Encoded(data[i..], key)| == a.Length
      invariant a[..o] + Encoded(data[i..], key) == Encoded(data, key)
      decreases size
    {
      ghost var done, rest := a[..o], data[i..];
      EncodedRest(rest, key);
      PutQuad(a, o, data[i], data[i + 1], data[i + 2], key);
      Regroup(done, Quad(data[i], data[i + 1], data[i + 2], key), Encoded(rest[3..], key), Encoded(data, key));
      assert rest[3..] == data[i + 3..];
      i, o, size := i + 3, o + 4, size - 3;
    }
    PutLastGroup(a, o, data, i, key);
    ret := a[..];
  }

  /** `base64encode_urlsafe(data, size)`: the encoder with the alphabet of section 5 of RFC 4648. */
  method Base64EncodeUrlSafe(data: seq<byte>) returns (ret: string)
    ensures ret == Encoded(data, UrlAlphabet)
  {
    ret := Base64Encode(data, UrlAlphabet);
  }

  /** Writes the three bytes of the group of four characters at `data[i..]` at `o`. */
  method PutGroupBytes(a: array<byte>, o: nat, data: string, i: nat)
    requires o + 3 <= a.Length && i + 4 <= |data|
    modifies a
    ensures a[..o + 3] == old(a[..o]) + GroupBytes(data[i..])
  {
    var odd, even := SextetOf(data[i]), SextetOf(data[i + 1]);
    a[o] := odd * 4 + even / 16;
    odd := SextetOf(data[i + 2]);
    a[o + 1] := even % 16 * 16 + odd / 4;
    even := SextetOf(data[i + 3]);
    a[o + 2] := odd % 4 * 64 + even;
  }

  /** Decoding starting at a group boundary: the group's bytes, then the rest. */
  lemma DecodedBodyRest(data: string, size: nat)
    requires size >= 3 && Span(size) <= |data|
    ensures Span(size - 3) <= |data[4..]|
    ensures DecodedBody(data, size) == GroupBytes(data) + DecodedBody(data[4..], size - 3)
  {
  }

  /** One more group decoded keeps the loop's account of the output. */
  lemma DecodeStepKeeps(done: seq<byte>, after: seq<byte>, rest: string, size: nat, want: seq<byte>)
    requires size >= 3 && Span(size) <= |rest|
    requires after == done + GroupBytes(rest) && done + DecodedBody(rest, size) == want
    ensures Span(size - 3) <= |rest[4..]| && after + DecodedBody(rest[4..], size - 3) == want
  {
    DecodedBodyRest(rest, size);
    assert done + (GroupBytes(rest) + DecodedBody(rest[4..], size - 3)) == want;
  }

  /** One turn of the decoding loop: a full group decoded at `o`, the account of the output kept. */
  method DecodeGroupIn(a: array<byte>, o: nat, data: string, i: nat, size: nat, ghost want: seq<byte>)
    requires size >= 3 && o + size == a.Length && i <= |data| && Span(size) <= |data| - i
    requires a[..o] + DecodedBody(data[i..], size) == want
    modifies a
    ensures i + 4 <= |data| && Span(size - 3) <= |data| - (i + 4)
    ensures a[..o + 3] + DecodedBody(data[i + 4..], size - 3) == want
  {
    ghost var done, rest := a[..o], data[i..];
    PutGroupBytes(a, o, data, i);
    DecodeStepKeeps(done, a[..o + 3], rest, size, want);
    assert rest[4..] == data[i + 4..];
  }

  /** Writes the one or two bytes of a short last group at `data[i..]` at `o`. */
  method PutShortGroup(a: array<byte>, o: nat, data: string, i: nat, size: nat, ghost done: seq<byte>)
    requires size < 3 && o + size == a.Length && i <= |data| && Span(size) <= |data| - i && a[..o] == done
    modifies a
    ensures a[..] == done + DecodedBody(data[i..], size)
  {
    if size == 2 {
      var odd, even := SextetOf(data[i]), SextetOf(data[i + 1]);
      a[o] := odd * 4 + even / 16;
      odd := SextetOf(data[i + 2]);
      a[o + 1] := even % 16 * 16 + odd / 4;
    } else if size == 1 {
      var odd, even := SextetOf(data[i]), SextetOf(data[i + 1]);
      a[o] := odd * 4 + even / 16;
    }
  }

  /** The output size computation at the head of `base64decode`. */
  method DecodedSizeOf(data: string) returns (size: nat)
    ensures size == DecodedSize(data)
  {
    size := |data|;
    if size % 4 == 2 {
      size := size / 4 * 3 + 1;
    } else if size % 4 == 3 {
      size := size / 4 * 3 + 2;
    } else if size < 2 {
      size := 0;
    } else if data[size - 2] == '=' {
      size := size / 4 * 3 - 2;
    } else if data[size - 1] == '=' {
      size := size / 4 * 3 - 1;
    } else {
      size := size / 4 * 3;
    }
  }

  /**
   * `base64decode(data, size)`: computes the output size from the length
   * and the padding, then turns each group of four characters into three
   * bytes and a short last group into one or two.
   */
  method Base64Decode(data: string) returns (ret: seq<byte>)
    ensures ret == Decoded(data)
  {
    var size := DecodedSizeOf(data);
    SpanOfDecodedSize(data);
    var a := new byte[size];
    DecodeInto(a, data, Decoded(data));
    ret := a[..];
  }

  /** The decoding loop of `base64decode`, filling all of `a`. */
  method DecodeInto(a: array<byte>, data: string, ghost want: seq<byte>)
    requires Span(a.Length) <= |data| && DecodedBody(data, a.Length) == want
    modifies a
    ensures a[..] == want
  {
    var size: nat, i: nat, o: nat := a.Length, 0, 0;
    assert data[0..] == data;
    while size >= 3
      invariant o + size == a.Length && i <= |data| && Span(size) <= |data| - i
      invariant a[..o] + DecodedBody(data[i..], size) == want
      decreases size
    {
      DecodeGroupIn(a, o, data, i, size, want);
      i, o, size := i + 4, o + 3, size - 3;
    }
    PutShortGroup(a, o, data, i, size, a[..o]);
  }
}
