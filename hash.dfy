/**
 * `calchash` of sanitize-filepath.c: a 64-bit xorshift-style mix over the
 * bytes of a C string, whose low 32 bits name a path segment that has to
 * be replaced (`uint32_t hash = calchash(e)`).
 */
module MuHash {
  import opened CStrings

  const Seed: bv64 := 0x3333_3333_CCCC_CCCC

  /** The xorshift round: shifts by 13 left, 7 right and 17 left, each folded in by exclusive or. */
  function Mix(x: bv64): bv64 {
    var a := x ^ (x << 13);
    var b := a ^ (a >> 7);
    b ^ (b << 17)
  }

  /** One loop turn for the byte `c`: fold it in twice, then mix. */
  function Absorb(x: bv64, c: char): bv64 {
    var v := c as int as bv64;
    Mix((x ^ (v << 26)) + v)
  }

  /** The accumulator after the bytes of `s`, folded left to right from `Seed`. */
  function State(s: string): bv64 {
    if |s| == 0 then Seed else Absorb(State(s[..|s| - 1]), s[|s| - 1])
  }

  /** `calchash(s)`: the accumulator, mixed once more. */
  function CalcHash(s: string): bv64
    requires IsCString(s)
  {
    Mix(State(s))
  }

  /** The 32 bits the sanitizer keeps: `(uint32_t)calchash(s)`. */
  function Hash32(s: string): bv32
    requires IsCString(s)
  {
    (CalcHash(s) & 0xFFFF_FFFF) as bv32
  }

  /** Folding the bytes of `s` into the accumulator `x`, left to right. */
  function Fold(x: bv64, s: string): bv64
    decreases |s|
  {
    if |s| == 0 then x else Fold(Absorb(x, s[0]), s[1..])
  }

  /** The hash streams: the state after `a + b` is the state after `a`, with `b` folded in. */
  lemma {:induction false} StateAppend(a: string, b: string)
    ensures State(a + b) == Fold(State(a), b)
    decreases |b|
  {
    if |b| == 0 {
      assert a + b == a;
    } else {
      var a' := a + [b[0]];
      assert a'[..|a'| - 1] == a;
      assert a + b == a' + b[1..];
      StateAppend(a', b[1..]);
    }
  }

  /** `calchash` of a whole string is the left fold of its bytes from the seed, then one mix. */
  lemma CalcHashIsFold(s: string)
    requires IsCString(s)
    ensures CalcHash(s) == Mix(Fold(Seed, s))
  {
    StateAppend([], s);
    assert [] + s == s;
  }

  /** Reference values: the empty string and `a`. */
  lemma HashValues()
    ensures CalcHash("") == 0x9581_E3C0_CD55_E655
    ensures CalcHash("a") == 0xCDE7_3D65_44D6_E948
  {
    assert "a"[..0] == "";
    assert State("a") == 0xF440_DD48_F925_BFF7;
  }

  /** The byte loop of `calchash`, then its final mix. */
  method ComputeHash(s: string) returns (x: bv64)
    requires IsCString(s)
    ensures x == CalcHash(s)
  {
    x := Seed;
    var i := 0;
    while i < |s|
      invariant 0 <= i <= |s|
      invariant x == State(s[..i])
    {
      assert s[..i + 1][..i] == s[..i] && s[..i + 1][i] == s[i];
      assert State(s[..i + 1]) == Absorb(State(s[..i]), s[i]);
      x := Absorb(x, s[i]);
      i := i + 1;
    }
    assert s[..i] == s;
    x := Mix(x);
  }
}
