/**
 * `StringExt.HmacSha256Hash`: the keyed digest written into shadow columns and
 * compared against by queries. The salt is the value of the environment
 * variable `EFCORE_DATA_PROTECTION__HASHING_SALT`, passed in as an option.
 */
module Hashing {
  import opened Wrappers
  import opened Crypto
  import opened Hex

  const EnvKey: string := "EFCORE_DATA_PROTECTION__HASHING_SALT"

  /** The InvalidOperationException thrown when the salt is absent. */
  datatype HashError = MissingSalt(variable: string)

  /**
   * HMAC-SHA256 keyed by the UTF-8 salt over the UTF-8 value, rendered as
   * lower-case hex. Only an absent salt is rejected; an empty one is a key.
   */
  function HmacSha256Hash(prims: HashPrimitives, salt: Option<string>, value: string): (r: Result<string, HashError>)
    ensures r.Failure? <==> salt.None?
    ensures r.Failure? ==> r.error == MissingSalt(EnvKey)
    ensures r.Success? ==> |r.value| == 64 && IsLowerHex(r.value)
    ensures r.Success? ==> HexDecode(r.value) == Some(prims.hmacSha256(prims.utf8(salt.value), prims.utf8(value)))
  {
    match salt
    case None => Failure(MissingSalt(EnvKey))
    case Some(key) =>
      var saltBytes := prims.utf8(key);
      var payloadBytes := prims.utf8(value);
      var hash := prims.hmacSha256(saltBytes, payloadBytes);
      LowerOfUpperHex(hash);
      HexDecodeRoundTrip(hash);
      Success(ToLowerAscii(HexUpper(hash)))
  }

  /**
   * Two values hash to the same string exactly when their keyed digests are
   * equal: the rendering adds no collisions and hides none.
   */
  lemma SameHashIffSameDigest(prims: HashPrimitives, salt: string, v1: string, v2: string)
    ensures HmacSha256Hash(prims, Some(salt), v1) == HmacSha256Hash(prims, Some(salt), v2)
        <==> prims.hmacSha256(prims.utf8(salt), prims.utf8(v1)) == prims.hmacSha256(prims.utf8(salt), prims.utf8(v2))
  {
    var d1 := prims.hmacSha256(prims.utf8(salt), prims.utf8(v1));
    var d2 := prims.hmacSha256(prims.utf8(salt), prims.utf8(v2));
    LowerOfUpperHex(d1);
    LowerOfUpperHex(d2);
    if HexLower(d1) == HexLower(d2) {
      HexLowerInjective(d1, d2);
    }
  }
}
