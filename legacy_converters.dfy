/**
 * `ByteArrayDataProtectionValueConverter` of the earlier
 * `EntityFrameworkCore.DataProtection` tree: `Protect` on write, `Unprotect`
 * on read, no intermediary.
 */
module LegacyConverters {
  import opened Wrappers
  import opened Crypto
  import opened Converters

  function LegacyByteArrayConverter(p: DataProtector): ValueConverter<Bytes, Bytes>
  {
    ValueConverter(b => p.protect(b), c => Unprotected(p.unprotect(c)))
  }

  /**
   * decode(encode(b)) == b under the protector law, a rejected ciphertext is
   * reported, and the converter behaves as the later tree's byte[] converter
   * without an intermediary.
   */
  lemma LegacyByteArrayRoundTrip(p: DataProtector, b: Bytes, c: Bytes)
    requires Sound(p)
    ensures RoundTripsAt(LegacyByteArrayConverter(p), b)
    ensures p.unprotect(c).Failure? ==>
      LegacyByteArrayConverter(p).convertFromProvider(c) == Failure(UnprotectFailed(p.unprotect(c).error))
    ensures LegacyByteArrayConverter(p).convertToProvider(b) == ByteArrayDataProtectionConverter(p, None).convertToProvider(b)
    ensures LegacyByteArrayConverter(p).convertFromProvider(c) == ByteArrayDataProtectionConverter(p, None).convertFromProvider(c)
  {
    assert p.unprotect(p.protect(b)) == Success(b);
  }
}
