/**
 * The cryptographic collaborators of the library, kept abstract.
 *
 * `IDataProtector` (authenticated encryption), HMAC-SHA256 (RFC 2104 over
 * SHA-256, FIPS 180-4), SHA-256 itself and UTF-8 encoding are not modelled
 * bit by bit: each is a function carried in a record, and what the library
 * relies on is stated as a predicate over that record.
 */
module Crypto {
  import opened Wrappers

  type byte = x: int | 0 <= x < 256
  type Bytes = seq<byte>

  /** A SHA-256 or HMAC-SHA256 output: always 32 bytes. */
  type Digest = b: Bytes | |b| == 32 witness seq(32, _ => 0)

  /** `Unprotect` rejects tampered or foreign ciphertext with a CryptographicException. */
  datatype CryptoError = InvalidCiphertext

  /**
   * An `IDataProtector`: the byte-array overloads and the string overloads
   * (the latter are the framework's UTF-8/Base64Url extension methods).
   */
  datatype DataProtector = DataProtector(
    protect: Bytes -> Bytes,
    unprotect: Bytes -> Result<Bytes, CryptoError>,
    protectText: string -> string,
    unprotectText: string -> Result<string, CryptoError>)

  /** The protector law: whatever is protected unprotects to itself. */
  ghost predicate Sound(p: DataProtector)
  {
    && (forall b: Bytes :: p.unprotect(p.protect(b)) == Success(b))
    && (forall s: string :: p.unprotectText(p.protectText(s)) == Success(s))
  }

  /** UTF-8 encoding and the two digest functions the library calls. */
  datatype HashPrimitives = HashPrimitives(
    utf8: string -> Bytes,
    hmacSha256: (Bytes, Bytes) -> Digest,
    sha256: Bytes -> Digest)
}
