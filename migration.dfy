/**
  How the two services relate. The newer service stores each key hex-encoded
  where the older one stores the raw key string; with that correspondence
  they produce the same envelopes and decrypt the same envelopes, so data
  written by either can be read by the other.
 */
module Migration {
  import opened Wrappers
  import opened Crypto
  import Current = SymmetricKeyEncryption
  import Legacy = StaticKey

  /** `current` holds, under the same group and ids, the hex encoding of each key `legacy` holds. */
  ghost predicate HexEncodedCopy(p: Primitives, legacy: Legacy.Encryption, current: Current.Encryption) {
    && legacy.keyGroup == current.keyGroup
    && legacy.activeKeyIds == current.activeKeyIds
    && (forall keyId :: Legacy.HasKey(legacy, keyId) <==> Current.HasKey(current, keyId))
    && (forall keyId :: Legacy.HasKey(legacy, keyId) ==>
          p.hexDecode(current.keys[current.keyGroup][keyId]) == Some(legacy.keys[legacy.keyGroup][keyId]))
  }

  /** The envelope codecs of the two services coincide. */
  lemma SameEnvelope(keyId: string, cipherText: string, data: string)
    ensures Legacy.FormatKeyCiphertext(keyId, cipherText) == Current.FormatKeyCiphertext(keyId, cipherText)
    ensures Legacy.ParseKeyCiphertext(data) == Current.ParseKeyCiphertext(data)
  {
  }

  /** With hex-encoded copies of the same keys, both services encrypt and decrypt alike. */
  lemma {:induction false} SameBehaviour(p: Primitives, legacy: Legacy.Encryption, current: Current.Encryption, data: string)
    requires HexEncodedCopy(p, legacy, current)
    ensures Current.Encrypt(current, p, data) == Legacy.Encrypt(legacy, p, data)
    ensures Current.Decrypt(current, p, data) == Legacy.Decrypt(legacy, p, data)
  {
  }
}
