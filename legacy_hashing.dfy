/**
 * The earlier tree's `StringExt.Sha256Hash` (and the identical private helper
 * of its `QueryableExt`): unkeyed SHA-256 over UTF-8, lower-case hex.
 */
module LegacyHashing {
  import opened Wrappers
  import opened Crypto
  import opened Hex

  /** Needs no configuration, so it cannot fail. */
  function Sha256Hash(prims: HashPrimitives, value: string): (r: string)
    ensures |r| == 64 && IsLowerHex(r)
    ensures HexDecode(r) == Some(prims.sha256(prims.utf8(value)))
  {
    var bytes := prims.utf8(value);
    var hash := prims.sha256(bytes);
    LowerOfUpperHex(hash);
    HexDecodeRoundTrip(hash);
    ToLowerAscii(HexUpper(hash))
  }

  /** Equal hash strings mean equal digests, and conversely. */
  lemma SameHashIffSameDigest(prims: HashPrimitives, v1: string, v2: string)
    ensures Sha256Hash(prims, v1) == Sha256Hash(prims, v2)
        <==> prims.sha256(prims.utf8(v1)) == prims.sha256(prims.utf8(v2))
  {
    var d1 := prims.sha256(prims.utf8(v1));
    var d2 := prims.sha256(prims.utf8(v2));
    LowerOfUpperHex(d1);
    LowerOfUpperHex(d2);
    if HexLower(d1) == HexLower(d2) {
      HexLowerInjective(d1, d2);
    }
  }
}
