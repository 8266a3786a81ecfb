/**
  The collaborators the encryption services call but do not implement:
  Halite's symmetric `Crypto::encrypt` / `Crypto::decrypt` (an authenticated
  cipher with a random nonce inside) and ConstantTime's `Hex::decode`. They
  are supplied as function values, and what the services rely on them for is
  the predicate `Sound`.
 */
module Crypto {
  import opened Wrappers

  datatype Primitives = Primitives(
    /** `Hex::decode`: the binary key, or None when the text is not hexadecimal. */
    hexDecode: string -> Option<string>,
    /** `Crypto::encrypt(plaintext, key)`: a text ciphertext. */
    seal: (string, string) -> string,
    /** `Crypto::decrypt(ciphertext, key)`: None when the message does not authenticate. */
    open: (string, string) -> Option<string>)

  /**
    Opening what was sealed under the same key gives the plaintext back, and
    sealed output never contains '$' (Halite's default encoding is URL-safe
    base64).
   */
  ghost predicate Sound(p: Primitives) {
    && (forall key, plain :: p.open(key, p.seal(key, plain)) == Some(plain))
    && (forall key, plain :: '$' !in p.seal(key, plain))
  }

  /** The failures the services report, one per exception kind. */
  datatype Error =
    | InvalidEnvelopeFormat       // OutOfBoundsException: not exactly three '$'-separated fields
    | UnknownKeyId(keyId: string) // OutOfRangeException: the id is not a key of the bound group
    | ActiveKeyIdMissing          // TypeError: the bound group has no active key id
    | InvalidKeyEncoding          // RangeException from Hex::decode on the stored key
    | AuthenticationFailure       // InvalidMessage from Crypto::decrypt
}
