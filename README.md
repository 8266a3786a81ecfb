# Key-rotating symmetric encryption envelope (spaze/encryption), modelled in Dafny

The library encrypts strings with a symmetric authenticated cipher (Halite)
and supports key rotation. A service instance is bound to one key group and
holds two tables fixed at construction: `keys[group][keyId]` (the key
material) and `activeKeyIds[group]` (the key used for new encryptions). Its
output is the textual envelope `$<keyId>$<ciphertext>`. Decryption parses the
key id back out and accepts any key of the bound group. `needsReEncrypt`
reports whether an envelope was made under a key other than the active one.

There are two versions of the service, each modelled in its own module:

- `SymmetricKeyEncryption` (src/SymmetricKeyEncryption.php): the current
  one. Stored keys are hex text, decoded before use. It has the rotation
  check `NeedsReEncrypt`.
- `StaticKey` (src/Symmetric/StaticKey.php): the older one. The stored key
  string is handed to the cipher unchanged. It has no rotation check.

Both services are pure: their fields are assigned once in the constructor
and never updated, and every method is an expression over them. So each
instance is an immutable datatype `Encryption(keyGroup, keys, activeKeyIds)`,
and each method is a function of that value. PHP exceptions become
`Failure(e)` of a `Result`. There is one `Crypto.Error` per exception kind:

| error | PHP exception |
|---|---|
| `InvalidEnvelopeFormat` | `OutOfBoundsException` from `parseKeyCipherText` |
| `UnknownKeyId(id)` | `OutOfRangeException` from `getKey` |
| `ActiveKeyIdMissing` | the `TypeError` that follows reading a missing `activeKeyIds[keyGroup]` |
| `InvalidKeyEncoding` | `RangeException` from `Hex::decode` (current version only) |
| `AuthenticationFailure` | `InvalidMessage` from `Crypto::decrypt` |

Other modules:

- `Explode` models PHP's `explode` for a one-character delimiter. It is
  proved to yield one more piece than the string has delimiters. It is also
  proved inverse to `Implode` in both directions.
- `Crypto.Primitives` holds the collaborators the services call but do not
  implement: `Crypto::encrypt`, `Crypto::decrypt` and `Hex::decode`, as
  function values. What the round-trip results rely on is stated once, as
  the predicate `Crypto.Sound`: opening what was sealed under the same key
  gives the plaintext back, and sealed text never contains `$`. Halite's
  default encoding is URL-safe base64, which has no `$`.
- `Migration` relates the two versions.
- `Scenarios` holds concrete envelopes and a two-key rotation scenario.

What the proofs establish, in short:

- Parsing succeeds exactly when the input holds two `$` characters.
- The leading field is neither checked nor kept.
- `parse(format(id, ct)) == (id, ct)` exactly when neither `id` nor `ct`
  contains `$`. A parsed envelope formats back to the input exactly when
  the input starts with `$`.
- `decrypt(encrypt(d)) == d` for a sound cipher exactly when the active key
  id contains no `$`. When it does contain one, every envelope that key
  produces is refused as malformed; neither version validates key ids.
- Errors come in source order. A malformed envelope fails before any key
  lookup. An unknown key fails before the cipher is called.
- Only the bound group's keys are ever consulted.
- A fresh envelope never needs re-encryption. After the active id changes,
  it does need re-encryption, and it still decrypts while its key is kept.
- The two versions behave identically when the current one stores the hex
  encoding of each key the older one stores raw.

## Model

| member | source | states |
|---|---|---|
| Explode.Explode | src/SymmetricKeyEncryption.php:112 | `explode` yields exactly (number of `$`) + 1 pieces, none of which contains the delimiter |
| Explode.ImplodeExplode | src/SymmetricKeyEncryption.php:112 | joining the pieces of `explode` with the delimiter gives back the input |
| Explode.ExplodeImplode | src/SymmetricKeyEncryption.php:112 | exploding the join of one or more delimiter-free pieces gives back those pieces |
| SymmetricKeyEncryption.FormatKeyCiphertext | src/SymmetricKeyEncryption.php:120-123 | the envelope is `$`, the key id, `$`, the ciphertext (positions and length), with two more `$` than the fields hold |
| SymmetricKeyEncryption.ParseKeyCiphertext | src/SymmetricKeyEncryption.php:110-117 | succeeds iff the input has exactly two `$`; otherwise fails with InvalidEnvelopeFormat; the fields returned are `$`-free |
| SymmetricKeyEncryption.ParseKeyCiphertextAccepts | src/SymmetricKeyEncryption.php:112-116 | any `$`-free leading field before `$id$ct` is accepted and dropped, giving `(id, ct)` |
| SymmetricKeyEncryption.ParseKeyCiphertextFields | src/SymmetricKeyEncryption.php:112-116 | every accepted input is a `$`-free leading field, `$`, the parsed id, `$`, the parsed ciphertext |
| SymmetricKeyEncryption.ParseRejects | src/SymmetricKeyEncryption.php:113-114 | any input whose `$` count is not two is rejected with InvalidEnvelopeFormat |
| SymmetricKeyEncryption.FormatThenParse | src/SymmetricKeyEncryption.php:110-123 | parse(format(id, ct)) succeeds iff id and ct are `$`-free, and then returns (id, ct) |
| SymmetricKeyEncryption.ParseThenFormat | src/SymmetricKeyEncryption.php:110-123 | a parsed input formats back to itself iff it starts with `$` (the dropped leading field was empty) |
| SymmetricKeyEncryption.GetKey | src/SymmetricKeyEncryption.php:91-98 | fails with UnknownKeyId iff the id is not a key of the bound group; otherwise yields the hex-decoded stored key, or InvalidKeyEncoding when decoding fails |
| SymmetricKeyEncryption.GetActiveKeyId | src/SymmetricKeyEncryption.php:101-104 | yields `activeKeyIds[keyGroup]`, or ActiveKeyIdMissing when the group has no entry |
| SymmetricKeyEncryption.Encrypt | src/SymmetricKeyEncryption.php:50-56 | errors in order (no active id; active id not in the group; stored key not hex, InvalidKeyEncoding); succeeds iff the active key resolves; output is `$activeId$` followed by the sealed data |
| SymmetricKeyEncryption.Decrypt | src/SymmetricKeyEncryption.php:69-74 | parse failure gives InvalidEnvelopeFormat before any lookup; an unknown id gives UnknownKeyId before the cipher; an undecodable stored key gives InvalidKeyEncoding; success iff the cipher opens, with exactly the opened plaintext; a message that does not open gives AuthenticationFailure |
| SymmetricKeyEncryption.NeedsReEncrypt | src/SymmetricKeyEncryption.php:80-84 | fails exactly when parsing fails (or no active id); otherwise true iff the envelope's id differs from the active id |
| SymmetricKeyEncryption.EncryptThenDecrypt | src/SymmetricKeyEncryption.php:50-74 | for a sound cipher, decrypt(encrypt(d)) == d when the active id is `$`-free, and InvalidEnvelopeFormat when it is not |
| SymmetricKeyEncryption.EncryptedIsCurrent | src/SymmetricKeyEncryption.php:50-84 | needsReEncrypt(encrypt(d)) is false under unchanged tables |
| SymmetricKeyEncryption.RotationDetected | src/SymmetricKeyEncryption.php:69-84 | after the active id changes, an envelope made under the old active key needs re-encryption and still decrypts |
| SymmetricKeyEncryption.DecryptAnyKeyOfGroup | src/SymmetricKeyEncryption.php:69-98 | any key id of the bound group decrypts its envelopes, active or not |
| SymmetricKeyEncryption.DecryptGroupIsolation | src/SymmetricKeyEncryption.php:91-98 | an envelope naming an id the bound group lacks fails with UnknownKeyId, whatever other groups hold |
| SymmetricKeyEncryption.SameGroupSameBehaviour | src/SymmetricKeyEncryption.php:93-103 | encrypt, decrypt and needsReEncrypt depend on the tables only through the bound group's entries |
| StaticKey.FormatKeyCiphertext | src/Symmetric/StaticKey.php:145-148 | the envelope is `$`, the key id, `$`, the ciphertext (positions and length) |
| StaticKey.ParseKeyCiphertext | src/Symmetric/StaticKey.php:128-135 | succeeds iff the input has exactly two `$`; otherwise InvalidEnvelopeFormat; fields are `$`-free |
| StaticKey.FormatThenParse | src/Symmetric/StaticKey.php:128-148 | parse(format(id, ct)) succeeds iff id and ct are `$`-free, and then returns (id, ct) |
| StaticKey.GetKey | src/Symmetric/StaticKey.php:99-106 | fails with UnknownKeyId iff the id is not a key of the bound group; otherwise yields the stored string itself, undecoded |
| StaticKey.GetActiveKeyId | src/Symmetric/StaticKey.php:116-119 | yields `activeKeyIds[keyGroup]`, or ActiveKeyIdMissing when the group has no entry |
| StaticKey.Encrypt | src/Symmetric/StaticKey.php:61-67 | errors in order (no active id; active id not in the group); output is `$activeId$` followed by the data sealed under the raw stored key |
| StaticKey.Decrypt | src/Symmetric/StaticKey.php:83-88 | parse failure before key lookup, unknown id before the cipher; success iff the cipher opens under the raw stored key, with exactly that plaintext |
| StaticKey.EncryptThenDecrypt | src/Symmetric/StaticKey.php:61-88 | for a sound cipher, decrypt(encrypt(d)) == d when the active id is `$`-free, and InvalidEnvelopeFormat when it is not |
| StaticKey.DecryptAnyKeyOfGroup | src/Symmetric/StaticKey.php:83-106 | any key id of the bound group decrypts its envelopes, also after the active id is changed |
| StaticKey.DecryptGroupIsolation | src/Symmetric/StaticKey.php:99-106 | an envelope naming an id the bound group lacks fails with UnknownKeyId |
| Migration.SameEnvelope | src/Symmetric/StaticKey.php:128-148 | both versions format and parse envelopes identically |
| Migration.SameBehaviour | src/Symmetric/StaticKey.php:102 | with the current version storing the hex encoding of each raw key of the older one, both encrypt and decrypt identically |
| Scenarios.ParseIgnoresLeadingField | src/SymmetricKeyEncryption.php:112-116 | `x$1$c` parses to id `1` and ciphertext `c` |
| Scenarios.ParseAcceptsEmptyKeyId | src/SymmetricKeyEncryption.php:112-116 | `$$c` parses to the empty id and ciphertext `c` |
| Scenarios.ParseRejectsOneField | src/SymmetricKeyEncryption.php:112-114 | the empty string and `not-an-envelope` are rejected |
| Scenarios.ParseRejectsThreeSeparators | src/SymmetricKeyEncryption.php:112-114 | any input with at least three `$` is rejected |
| Scenarios.ParseRejectsFourFields | src/SymmetricKeyEncryption.php:112-114 | `a$b$c$d` is rejected |
| Scenarios.ParseRejectsSixFields | src/SymmetricKeyEncryption.php:112-114 | `$only$two$wait$four$parts` is rejected |
| Scenarios.RotationScenario | src/SymmetricKeyEncryption.php:50-84 | keys `1`, `2` with `2` active: encrypt("hello") starts with `$2$`, decrypts to "hello" and is current; with `1` active it needs re-encryption and still decrypts |
| Scenarios.UnknownKeyScenario | src/SymmetricKeyEncryption.php:69-98 | `$99$abc` fails with UnknownKeyId("99") when the group has no key `99` |
| Scenarios.GroupIsolationScenario | src/SymmetricKeyEncryption.php:91-98 | an instance bound to group A refuses an envelope whose id only group B holds |

## Left out

- Halite's `Crypto::encrypt` / `Crypto::decrypt` are not implemented. They are the function values `seal` and `open` of `Crypto.Primitives`, and the round-trip results assume `Crypto.Sound`. Tamper detection (a modified ciphertext fails to authenticate) is the cipher's guarantee and is not modelled beyond `open` returning None, which becomes AuthenticationFailure.
- Encryption is randomised (a fresh nonce per call); `seal` is a function, so the model fixes one outcome per key and plaintext. That two encryptions of the same plaintext differ is not expressible.
- `Hex::decode` is the abstract partial function `hexDecode`; its constant-time behaviour is not modelled.
- The length check of Halite's `EncryptionKey` (InvalidKey) and the cipher's other exceptions (CannotPerformOperation, SodiumException and the like) are not modelled: `seal` is total.
- `HiddenString` and `EncryptionKey` only wrap the key and plaintext for memory hygiene; the model passes the strings directly.
- Exception message texts are not modelled; each exception is one `Crypto.Error` value.
- PHP's warning and TypeError on a missing `activeKeyIds[keyGroup]` are the single error ActiveKeyIdMissing. In both versions the TypeError comes from `getActiveKeyId`'s `string` return type, before any key lookup.
- PHP strings are byte strings; the model uses `string` (a sequence of `char`). Only the `$` character matters to the envelope.
- PHP turns decimal-integer array keys such as "1" into integers, both when the tables are built and when they are read, so lookups behave as on a `map<string, _>`.
- `Nette\SmartObject` (magic-property support) in the older class is not part of this model.
- src/Exceptions/InvalidKeyPrefixException.php only builds a message and is unused by the services; it is not part of this model.
- The constructors only store their arguments; they are the datatype constructors `Encryption(...)`.
- The parser does not require the leading field to be empty and does not split at most three ways: any leading field is accepted, and exactly three pieces are required. The model does the same.
- "Decrypt succeeds only for envelopes that encrypt produced" rests on the cipher's unforgeability and is not proved.
