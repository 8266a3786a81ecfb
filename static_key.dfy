/**
  The older service, `Spaze\Encryption\Symmetric\StaticKey`. Same tables,
  same envelope and same key selection as the current service, but the
  stored key string is handed to the cipher as it is (no hex decoding) and
  there is no rotation check.
 */
module StaticKey {
  import opened Wrappers
  import opened Crypto
  import Explode

  const KeyCiphertextSeparator: char := '$'

  /** The instance: `$keyGroup`, `$keys` and `$activeKeyIds` are assigned once, in the constructor. */
  datatype Encryption = Encryption(
    keyGroup: string,
    keys: map<string, map<string, string>>,
    activeKeyIds: map<string, string>)

  /** `isset($this->keys[$this->keyGroup][$keyId])`: only the bound group is consulted. */
  predicate HasKey(e: Encryption, keyId: string) {
    e.keyGroup in e.keys && keyId in e.keys[e.keyGroup]
  }

  /** The envelope: a separator, the key id, a separator, the ciphertext. */
  function FormatKeyCiphertext(keyId: string, cipherText: string): (r: string)
    ensures |r| == |keyId| + |cipherText| + 2
    ensures r[0] == KeyCiphertextSeparator && r[|keyId| + 1] == KeyCiphertextSeparator
    ensures r[1..|keyId| + 1] == keyId && r[|keyId| + 2..] == cipherText
    ensures multiset(r)[KeyCiphertextSeparator]
         == multiset(keyId)[KeyCiphertextSeparator] + multiset(cipherText)[KeyCiphertextSeparator] + 2
  {
    [KeyCiphertextSeparator] + keyId + [KeyCiphertextSeparator] + cipherText
  }

  /** Exactly three separator-delimited pieces; the first is dropped. Succeeds iff there are two separators. */
  function ParseKeyCiphertext(data: string): (r: Result<(string, string), Error>)
    ensures r.Success? <==> multiset(data)[KeyCiphertextSeparator] == 2
    ensures r.Failure? ==> r.error == InvalidEnvelopeFormat
    ensures r.Success? ==> KeyCiphertextSeparator !in r.value.0 && KeyCiphertextSeparator !in r.value.1
  {
    var parts := Explode.Explode(KeyCiphertextSeparator, data);
    if |parts| != 3 then Failure(InvalidEnvelopeFormat)
    else Success((parts[1], parts[2]))
  }

  /** Round trip, both directions: format then parse gives back the fields iff both are separator-free. */
  lemma FormatThenParse(keyId: string, cipherText: string)
    ensures ParseKeyCiphertext(FormatKeyCiphertext(keyId, cipherText)).Success?
        <==> KeyCiphertextSeparator !in keyId && KeyCiphertextSeparator !in cipherText
    ensures KeyCiphertextSeparator !in keyId && KeyCiphertextSeparator !in cipherText ==>
              ParseKeyCiphertext(FormatKeyCiphertext(keyId, cipherText)) == Success((keyId, cipherText))
  {
    if KeyCiphertextSeparator !in keyId && KeyCiphertextSeparator !in cipherText {
      var parts := ["", keyId, cipherText];
      Explode.ExplodeImplode(KeyCiphertextSeparator, parts);
      Explode.ImplodeThree(KeyCiphertextSeparator, "", keyId, cipherText);
      assert "" + [KeyCiphertextSeparator] + keyId == [KeyCiphertextSeparator] + keyId;
    }
  }

  /**
    `getKey`: the stored key string itself, without decoding. It fails with
    UnknownKeyId exactly when the bound group has no such key, and cannot
    fail otherwise.
   */
  function GetKey(e: Encryption, keyId: string): (r: Result<string, Error>)
    ensures r.Success? <==> HasKey(e, keyId)
    ensures r.Success? ==> r.value == e.keys[e.keyGroup][keyId]
    ensures r.Failure? ==> r.error == UnknownKeyId(keyId)
  {
    if HasKey(e, keyId) then Success(e.keys[e.keyGroup][keyId])
    else Failure(UnknownKeyId(keyId))
  }

  /**
    `getActiveKeyId`: the bound group's active key id. A missing entry gives
    null, which the declared `string` return type refuses with a TypeError.
   */
  function GetActiveKeyId(e: Encryption): (r: Result<string, Error>)
    ensures r.Success? <==> e.keyGroup in e.activeKeyIds
    ensures r.Success? ==> r.value == e.activeKeyIds[e.keyGroup]
    ensures r.Failure? ==> r.error == ActiveKeyIdMissing
  {
    if e.keyGroup in e.activeKeyIds then Success(e.activeKeyIds[e.keyGroup])
    else Failure(ActiveKeyIdMissing)
  }

  /** Encrypts with the active key and prefixes the ciphertext with `$<activeKeyId>$`. */
  function Encrypt(e: Encryption, p: Primitives, data: string): (r: Result<string, Error>)
    ensures e.keyGroup !in e.activeKeyIds ==> r == Failure(ActiveKeyIdMissing)
    ensures e.keyGroup in e.activeKeyIds && !HasKey(e, e.activeKeyIds[e.keyGroup]) ==>
              r == Failure(UnknownKeyId(e.activeKeyIds[e.keyGroup]))
    ensures r.Success? <==> e.keyGroup in e.activeKeyIds && HasKey(e, e.activeKeyIds[e.keyGroup])
    ensures r.Success? ==>
              var keyId := e.activeKeyIds[e.keyGroup];
              && |r.value| >= |keyId| + 2
              && r.value[..|keyId| + 2] == [KeyCiphertextSeparator] + keyId + [KeyCiphertextSeparator]
              && r.value[|keyId| + 2..] == p.seal(e.keys[e.keyGroup][keyId], data)
  {
    var keyId :- GetActiveKeyId(e);
    var key :- GetKey(e, keyId);
    Success(FormatKeyCiphertext(keyId, p.seal(key, data)))
  }

  /**
    Decrypts with whichever key of the bound group the envelope names. A
    malformed envelope fails before any key lookup, an unknown key before
    the cipher is invoked.
   */
  function Decrypt(e: Encryption, p: Primitives, data: string): (r: Result<string, Error>)
    ensures ParseKeyCiphertext(data).Failure? ==> r == Failure(InvalidEnvelopeFormat)
    ensures ParseKeyCiphertext(data).Success? && !HasKey(e, ParseKeyCiphertext(data).value.0) ==>
              r == Failure(UnknownKeyId(ParseKeyCiphertext(data).value.0))
    ensures r.Success? <==>
              && ParseKeyCiphertext(data).Success?
              && HasKey(e, ParseKeyCiphertext(data).value.0)
              && p.open(e.keys[e.keyGroup][ParseKeyCiphertext(data).value.0], ParseKeyCiphertext(data).value.1).Some?
    ensures r.Success? ==>
              var (keyId, cipherText) := ParseKeyCiphertext(data).value;
              p.open(e.keys[e.keyGroup][keyId], cipherText) == Some(r.value)
    ensures r.Failure? && ParseKeyCiphertext(data).Success? && HasKey(e, ParseKeyCiphertext(data).value.0) ==>
              r.error == AuthenticationFailure
  {
    var parsed :- ParseKeyCiphertext(data);
    var key :- GetKey(e, parsed.0);
    match p.open(key, parsed.1)
    case Some(plain) => Success(plain)
    case None => Failure(AuthenticationFailure)
  }

  /**
    decrypt(encrypt(data)) == data, given a sound cipher, exactly when the
    active key id is free of the separator.
   */
  lemma {:induction false} EncryptThenDecrypt(e: Encryption, p: Primitives, data: string)
    requires Sound(p)
    requires Encrypt(e, p, data).Success?
    ensures var keyId := e.activeKeyIds[e.keyGroup];
            && (KeyCiphertextSeparator !in keyId ==> Decrypt(e, p, Encrypt(e, p, data).value) == Success(data))
            && (KeyCiphertextSeparator in keyId ==> Decrypt(e, p, Encrypt(e, p, data).value) == Failure(InvalidEnvelopeFormat))
  {
    var keyId := e.activeKeyIds[e.keyGroup];
    var cipherText := p.seal(e.keys[e.keyGroup][keyId], data);
    assert Encrypt(e, p, data).value == FormatKeyCiphertext(keyId, cipherText);
    assert KeyCiphertextSeparator !in cipherText;
    FormatThenParse(keyId, cipherText);
  }

  /**
    Any key id of the bound group decrypts, active or not, and rotating the
    active id leaves envelopes made under a retained key decryptable.
   */
  lemma {:induction false} DecryptAnyKeyOfGroup(e: Encryption, p: Primitives, keyId: string, plain: string, newKeyId: string)
    requires Sound(p)
    requires HasKey(e, keyId) && KeyCiphertextSeparator !in keyId
    ensures var envelope := FormatKeyCiphertext(keyId, p.seal(e.keys[e.keyGroup][keyId], plain));
            var rotated := e.(activeKeyIds := e.activeKeyIds[e.keyGroup := newKeyId]);
            && Decrypt(e, p, envelope) == Success(plain)
            && Decrypt(rotated, p, envelope) == Success(plain)
  {
    FormatThenParse(keyId, p.seal(e.keys[e.keyGroup][keyId], plain));
  }

  /** Group isolation: an id the bound group lacks is UnknownKeyId, whatever other groups hold. */
  lemma {:induction false} DecryptGroupIsolation(e: Encryption, p: Primitives, keyId: string, cipherText: string)
    requires KeyCiphertextSeparator !in keyId && KeyCiphertextSeparator !in cipherText
    requires !HasKey(e, keyId)
    ensures Decrypt(e, p, FormatKeyCiphertext(keyId, cipherText)) == Failure(UnknownKeyId(keyId))
  {
    FormatThenParse(keyId, cipherText);
  }
}
