/**
 * Base16 rendering of digests (section 8 of RFC 4648). `Convert.ToHexString`
 * renders upper-case digits; the library lower-cases the result with
 * `string.ToLower`.
 */
module Hex {
  import opened Wrappers
  import opened Crypto

  const UpperDigits: string := "0123456789ABCDEF"
  const LowerDigits: string := "0123456789abcdef"

  predicate IsLowerHexChar(c: char)
  {
    ('0' <= c <= '9') || ('a' <= c <= 'f')
  }

  /** Every character of `s` is one of `0-9a-f`. */
  predicate IsLowerHex(s: string)
  {
    forall i :: 0 <= i < |s| ==> IsLowerHexChar(s[i])
  }

  /** `Convert.ToHexString`: two upper-case digits per byte, high nibble first. */
  function HexUpper(b: Bytes): (r: string)
    ensures |r| == 2 * |b|
  {
    if b == [] then ""
    else [UpperDigits[b[0] / 16], UpperDigits[b[0] % 16]] + HexUpper(b[1..])
  }

  /** The lower-case mapping of `string.ToLower` on the ASCII letters. */
  function LowerChar(c: char): char
  {
    if 'A' <= c <= 'Z' then (c as int + 32) as char else c
  }

  function ToLowerAscii(s: string): (r: string)
    ensures |r| == |s|
    ensures forall i :: 0 <= i < |s| ==> r[i] == LowerChar(s[i])
  {
    if s == [] then "" else [LowerChar(s[0])] + ToLowerAscii(s[1..])
  }

  /** The lower-case rendering the library produces, defined directly. */
  function HexLower(b: Bytes): (r: string)
    ensures |r| == 2 * |b|
    ensures IsLowerHex(r)
  {
    if b == [] then ""
    else [LowerDigits[b[0] / 16], LowerDigits[b[0] % 16]] + HexLower(b[1..])
  }

  /** The value of one lower-case digit, if `c` is one. */
  function DigitValue(c: char): (r: Option<nat>)
    ensures r.Some? ==> r.value < 16 && LowerDigits[r.value] == c
  {
    if '0' <= c <= '9' then Some(c as int - '0' as int)
    else if 'a' <= c <= 'f' then Some(c as int - 'a' as int + 10)
    else None
  }

  /** Reads a lower-case hex string back into bytes; `None` if it is not one. */
  function HexDecode(s: string): (r: Option<Bytes>)
    ensures r.Some? ==> 2 * |r.value| == |s|
  {
    if s == [] then Some([])
    else if |s| == 1 then None
    else match (DigitValue(s[0]), DigitValue(s[1]), HexDecode(s[2..]))
      case (Some(hi), Some(lo), Some(rest)) => Some([(hi * 16 + lo) as byte] + rest)
      case _ => None
  }

  /** Lower-casing the upper-case rendering gives the lower-case rendering. */
  lemma {:induction false} LowerOfUpperHex(b: Bytes)
    ensures ToLowerAscii(HexUpper(b)) == HexLower(b)
  {
    if b != [] {
      var head := [UpperDigits[b[0] / 16], UpperDigits[b[0] % 16]];
      assert HexUpper(b) == head + HexUpper(b[1..]);
      ToLowerAsciiConcat(head, HexUpper(b[1..]));
      LowerOfUpperHex(b[1..]);
      LowerOfUpperDigit(b[0] / 16);
      LowerOfUpperDigit(b[0] % 16);
      assert ToLowerAscii(head) == [LowerDigits[b[0] / 16], LowerDigits[b[0] % 16]];
    }
  }

  /** `ToLowerAscii` works character by character, so it distributes over concatenation. */
  lemma ToLowerAsciiConcat(x: string, y: string)
    ensures ToLowerAscii(x + y) == ToLowerAscii(x) + ToLowerAscii(y)
  {
    var l := ToLowerAscii(x + y);
    var r := ToLowerAscii(x) + ToLowerAscii(y);
    forall i | 0 <= i < |l| ensures l[i] == r[i] {
      if i >= |x| {
        assert (x + y)[i] == y[i - |x|];
      }
    }
  }

  /** Lower-casing an upper-case digit gives the lower-case digit of the same value. */
  lemma LowerOfUpperDigit(d: nat)
    requires d < 16
    ensures LowerChar(UpperDigits[d]) == LowerDigits[d]
  {
  }


  lemma DigitValueOfLower(n: nat)
    requires n < 16
    ensures DigitValue(LowerDigits[n]) == Some(n)
  {
  }

  /** The lower-case rendering can be read back: it loses nothing. */
  lemma {:induction false} HexDecodeRoundTrip(b: Bytes)
    ensures HexDecode(HexLower(b)) == Some(b)
  {
    if b != [] {
      var s := HexLower(b);
      assert s[0] == LowerDigits[b[0] / 16] && s[1] == LowerDigits[b[0] % 16];
      DigitValueOfLower(b[0] / 16);
      DigitValueOfLower(b[0] % 16);
      assert s[2..] == HexLower(b[1..]);
      HexDecodeRoundTrip(b[1..]);
      HexDecodeCons(s, b[0] / 16, b[0] % 16, b[1..]);
      NibblesRecombine(b[0]);
      assert b == [b[0]] + b[1..];
    }
  }

  /** Two digits followed by a readable rest read as one byte followed by the rest. */
  lemma HexDecodeCons(s: string, hi: nat, lo: nat, rest: Bytes)
    requires |s| >= 2 && DigitValue(s[0]) == Some(hi) && DigitValue(s[1]) == Some(lo)
    requires HexDecode(s[2..]) == Some(rest)
    ensures HexDecode(s) == Some([(hi * 16 + lo) as byte] + rest)
  {
  }

  /** The high and the low nibble of a byte give the byte back. */
  lemma NibblesRecombine(x: byte)
    ensures ((x / 16) as int * 16 + (x % 16) as int) as byte == x
  {
  }


  /** Distinct digests render to distinct strings. */
  lemma HexLowerInjective(a: Bytes, b: Bytes)
    requires HexLower(a) == HexLower(b)
    ensures a == b
  {
    HexDecodeRoundTrip(a);
    HexDecodeRoundTrip(b);
  }
}
