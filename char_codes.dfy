/** src/compiler/utils/full_char_code_at.ts: the code point at a UTF-16
    offset, combining a surrogate pair.  Dafny's `char` cannot hold a lone
    surrogate, so the string is a sequence of code-unit integers here. */
module CharCodes {
  import opened Contracts

  /** A UTF-16 code unit, as `charCodeAt` returns it. */
  type CodeUnit = u: int | 0 <= u < 0x1_0000

  predicate IsSurrogate(u: CodeUnit) {
    0xD800 <= u <= 0xDFFF
  }

  predicate IsHighSurrogate(u: CodeUnit) {
    0xD800 <= u <= 0xDBFF
  }

  predicate IsLowSurrogate(u: CodeUnit) {
    0xDC00 <= u <= 0xDFFF
  }

  /** ECMAScript ToInt32: wrap an integer into the signed 32-bit range. */
  function ToInt32(x: int): (r: int)
    ensures -0x8000_0000 <= r < 0x8000_0000
    ensures (x - r) % 0x1_0000_0000 == 0
    ensures -0x8000_0000 <= x < 0x8000_0000 ==> r == x
  {
    var m := x % 0x1_0000_0000;
    if m >= 0x8000_0000 then m - 0x1_0000_0000 else m
  }

  /** JavaScript's `x << 10`. */
  function ShiftLeft10(x: int): int {
    ToInt32(ToInt32(x) * 0x400)
  }

  /** `fullCharCodeAt(str, i)`: a code unit outside 0xD800..0xDFFF is
      returned as it is; a unit inside that range is combined with the next
      one, without checking that the two form a valid pair.  `charCodeAt`
      past the end is NaN, and NaN then propagates: `None` stands for it. */
  function FullCharCodeAt(str: seq<CodeUnit>, i: nat): (code: Option<int>)
    ensures code.None? <==> i >= |str| || (IsSurrogate(str[i]) && i + 1 >= |str|)
    ensures i < |str| && !IsSurrogate(str[i]) ==> code == Some(str[i] as int)
    ensures i + 1 < |str| && IsSurrogate(str[i]) ==>
              code == Some(0x1_0000 + (str[i] as int - 0xD800) * 0x400 + (str[i + 1] as int - 0xDC00))
    ensures i + 1 < |str| && IsHighSurrogate(str[i]) && IsLowSurrogate(str[i + 1]) ==>
              0x1_0000 <= code.value <= 0x10_FFFF
  {
    if i >= |str| then None
    else
      var c := str[i];
      if c <= 0xD7FF || c >= 0xE000 then Some(c as int)
      else if i + 1 >= |str| then None
      else
        assert ShiftLeft10(c) == c as int * 0x400;
        Some(ShiftLeft10(c) + str[i + 1] as int - 0x35F_DC00)
  }

  /** The surrogate pair that encodes a supplementary code point, as in
      section 2.1 of RFC 2781: the reference the decoding is checked against. */
  function EncodeSurrogatePair(cp: int): (pair: seq<CodeUnit>)
    requires 0x1_0000 <= cp <= 0x10_FFFF
    ensures |pair| == 2 && IsHighSurrogate(pair[0]) && IsLowSurrogate(pair[1])
  {
    var v := cp - 0x1_0000;
    [0xD800 + v / 0x400, 0xDC00 + v % 0x400]
  }

  /** Decoding an encoded supplementary code point gives it back. */
  lemma DecodeEncoded(cp: int)
    requires 0x1_0000 <= cp <= 0x10_FFFF
    ensures FullCharCodeAt(EncodeSurrogatePair(cp), 0) == Some(cp)
  {
    var v := cp - 0x1_0000;
    assert v == (v / 0x400) * 0x400 + v % 0x400;
  }

  /** Every valid surrogate pair is the encoding of the code point it decodes to. */
  lemma EncodeDecoded(hi: CodeUnit, lo: CodeUnit)
    requires IsHighSurrogate(hi) && IsLowSurrogate(lo)
    ensures FullCharCodeAt([hi, lo], 0).Some?
    ensures EncodeSurrogatePair(FullCharCodeAt([hi, lo], 0).value) == [hi, lo]
  {
    var a, b := hi as int - 0xD800, lo as int - 0xDC00;
    var v := a * 0x400 + b;
    assert FullCharCodeAt([hi, lo], 0).value - 0x1_0000 == v;
    DivModUnique(v, a, b);
  }

  lemma DivModUnique(v: int, q: int, r: int)
    requires 0 <= q && 0 <= r < 0x400 && v == q * 0x400 + r
    ensures v / 0x400 == q && v % 0x400 == r
  {
  }
}
