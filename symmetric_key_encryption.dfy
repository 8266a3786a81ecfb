/**
  The current service, `Spaze\Encryption\SymmetricKeyEncryption`. An instance
  is bound to one key group and holds two tables fixed at construction:
  `keys[group][keyId]` (hex-encoded key material) and `activeKeyIds[group]`.
  Encryption always uses the group's active key; decryption accepts any key
  of the bound group; `NeedsReEncrypt` tells whether an envelope was made
  with a key other than the active one. The envelope is `$<keyId>$<ciphertext>`.
 */
module SymmetricKeyEncryption {
  import opened Wrappers
  import opened Crypto
  import Explode

  const KeyCiphertextSeparator: char := '$'

  /** The instance: its fields are assigned by constructor promotion and never updated. */
  datatype Encryption = Encryption(
    keyGroup: string,
    keys: map<string, map<string, string>>,
    activeKeyIds: map<string, string>)

  /** `isset($this->keys[$this->keyGroup][$keyId])`: only the bound group is consulted. */
  predicate HasKey(e: Encryption, keyId: string) {
    e.keyGroup in e.keys && keyId in e.keys[e.keyGroup]
  }

  // ---------------------------------------------------------------------
  // Envelope format

  /** The envelope: a separator, the key id, a separator, the ciphertext. */
  function FormatKeyCiphertext(keyId: string, cipherText: string): (r: string)
    ensures |r| == |keyId| + |cipherText| + 2
    ensures r[0] == KeyCiphertextSeparator && r[|keyId| + 1] == KeyCiphertextSeparator
    ensures r[1..|keyId| + 1] == keyId && r[|keyId| + 2..] == cipherText
    ensures multiset(r)[KeyCiphertextSeparator]
         == multiset(keyId)[KeyCiphertextSeparator] + multiset(cipherText)[KeyCiphertextSeparator] + 2
  {
    [KeyCiphertextSeparator] + keyId + [KeyCiphertextSeparator] + cipherText
  }

  /**
    Splits on the separator and demands exactly three pieces; the first is
    discarded, the second is the key id, the third the ciphertext. Since
    `explode` yields one more piece than there are separators, parsing
    succeeds exactly when the input holds two separators.
   */
  function ParseKeyCiphertext(data: string): (r: Result<(string, string), Error>)
    ensures r.Success? <==> multiset(data)[KeyCiphertextSeparator] == 2
    ensures r.Failure? ==> r.error == InvalidEnvelopeFormat
    ensures r.Success? ==> KeyCiphertextSeparator !in r.value.0 && KeyCiphertextSeparator !in r.value.1
  {
    var parts := Explode.Explode(KeyCiphertextSeparator, data);
    if |parts| != 3 then Failure(InvalidEnvelopeFormat)
    else Success((parts[1], parts[2]))
  }

  /** Whatever separator-free leading field precedes the key id is accepted and dropped. */
  lemma ParseKeyCiphertextAccepts(lead: string, keyId: string, cipherText: string)
    requires KeyCiphertextSeparator !in lead
    requires KeyCiphertextSeparator !in keyId && KeyCiphertextSeparator !in cipherText
    ensures ParseKeyCiphertext(lead + [KeyCiphertextSeparator] + keyId + [KeyCiphertextSeparator] + cipherText)
         == Success((keyId, cipherText))
  {
    var parts := [lead, keyId, cipherText];
    Explode.ExplodeImplode(KeyCiphertextSeparator, parts);
    Explode.ImplodeThree(KeyCiphertextSeparator, lead, keyId, cipherText);
  }

  /** Every accepted input is a separator-free leading field, the key id and the ciphertext. */
  lemma ParseKeyCiphertextFields(data: string)
    requires ParseKeyCiphertext(data).Success?
    ensures var lead := Explode.Explode(KeyCiphertextSeparator, data)[0];
            var (keyId, cipherText) := ParseKeyCiphertext(data).value;
            && KeyCiphertextSeparator !in lead
            && data == lead + [KeyCiphertextSeparator] + keyId + [KeyCiphertextSeparator] + cipherText
  {
    var parts := Explode.Explode(KeyCiphertextSeparator, data);
    Explode.ImplodeExplode(KeyCiphertextSeparator, data);
    assert parts == [parts[0], parts[1], parts[2]];
    Explode.ImplodeThree(KeyCiphertextSeparator, parts[0], parts[1], parts[2]);
  }

  /**
    Round trip, both directions: formatting and parsing back succeeds exactly
    when neither the key id nor the ciphertext contains the separator, and
    then gives back both.
   */
  lemma FormatThenParse(keyId: string, cipherText: string)
    ensures ParseKeyCiphertext(FormatKeyCiphertext(keyId, cipherText)).Success?
        <==> KeyCiphertextSeparator !in keyId && KeyCiphertextSeparator !in cipherText
    ensures KeyCiphertextSeparator !in keyId && KeyCiphertextSeparator !in cipherText ==>
              ParseKeyCiphertext(FormatKeyCiphertext(keyId, cipherText)) == Success((keyId, cipherText))
  {
    if KeyCiphertextSeparator !in keyId && KeyCiphertextSeparator !in cipherText {
      ParseKeyCiphertextAccepts("", keyId, cipherText);
      assert "" + [KeyCiphertextSeparator] + keyId == [KeyCiphertextSeparator] + keyId;
    }
  }

  /**
    The other round trip: a parsed envelope formats back to the input exactly
    when the input starts with the separator, i.e. the dropped leading field
    was empty.
   */
  lemma ParseThenFormat(data: string)
    requires ParseKeyCiphertext(data).Success?
    ensures var (keyId, cipherText) := ParseKeyCiphertext(data).value;
            FormatKeyCiphertext(keyId, cipherText) == data <==> data[0] == KeyCiphertextSeparator
  {
    ParseKeyCiphertextFields(data);
    var lead := Explode.Explode(KeyCiphertextSeparator, data)[0];
    var (keyId, cipherText) := ParseKeyCiphertext(data).value;
    if lead == [] {
      assert data == [KeyCiphertextSeparator] + keyId + [KeyCiphertextSeparator] + cipherText;
    } else {
      assert data[0] == lead[0];
    }
  }

  /** Any input without exactly two separators is rejected. */
  lemma ParseRejects(data: string)
    requires multiset(data)[KeyCiphertextSeparator] != 2
    ensures ParseKeyCiphertext(data) == Failure(InvalidEnvelopeFormat)
  {
  }

  // ---------------------------------------------------------------------
  // Key selection

  /**
    `getKey`: the hex-decoded key stored under `keyId` in the bound group.
    It fails with UnknownKeyId exactly when the bound group has no such key,
    whatever other groups hold; a stored key that is not hexadecimal makes
    `Hex::decode` fail.
   */
  function GetKey(e: Encryption, p: Primitives, keyId: string): (r: Result<string, Error>)
    ensures r == Failure(UnknownKeyId(keyId)) <==> !HasKey(e, keyId)
    ensures r.Success? <==> HasKey(e, keyId) && p.hexDecode(e.keys[e.keyGroup][keyId]).Some?
    ensures r.Success? ==> p.hexDecode(e.keys[e.keyGroup][keyId]) == Some(r.value)
    ensures r.Failure? && HasKey(e, keyId) ==> r.error == InvalidKeyEncoding
  {
    if HasKey(e, keyId) then
      match p.hexDecode(e.keys[e.keyGroup][keyId])
      case Some(key) => Success(key)
      case None => Failure(InvalidKeyEncoding)
    else
      Failure(UnknownKeyId(keyId))
  }

  /** `getActiveKeyId`: the bound group's active key id; a missing entry ends in a TypeError. */
  function GetActiveKeyId(e: Encryption): (r: Result<string, Error>)
    ensures r.Success? <==> e.keyGroup in e.activeKeyIds
    ensures r.Success? ==> r.value == e.activeKeyIds[e.keyGroup]
    ensures r.Failure? ==> r.error == ActiveKeyIdMissing
  {
    if e.keyGroup in e.activeKeyIds then Success(e.activeKeyIds[e.keyGroup])
    else Failure(ActiveKeyIdMissing)
  }

  // ---------------------------------------------------------------------
  // The public operations

  /**
    Encrypts with the bound group's active key and wraps the ciphertext in an
    envelope naming that key. The errors come in source order: no active
    id, then an active id that is not a key of the group, then a key that
    does not decode.
   */
  function Encrypt(e: Encryption, p: Primitives, data: string): (r: Result<string, Error>)
    ensures e.keyGroup !in e.activeKeyIds ==> r == Failure(ActiveKeyIdMissing)
    ensures e.keyGroup in e.activeKeyIds && !HasKey(e, e.activeKeyIds[e.keyGroup]) ==>
              r == Failure(UnknownKeyId(e.activeKeyIds[e.keyGroup]))
    ensures e.keyGroup in e.activeKeyIds && HasKey(e, e.activeKeyIds[e.keyGroup])
            && p.hexDecode(e.keys[e.keyGroup][e.activeKeyIds[e.keyGroup]]).None? ==>
              r == Failure(InvalidKeyEncoding)
    ensures r.Success? <==> e.keyGroup in e.activeKeyIds && GetKey(e, p, e.activeKeyIds[e.keyGroup]).Success?
    ensures r.Success? ==>
              var keyId := e.activeKeyIds[e.keyGroup];
              var key := GetKey(e, p, keyId).value;
              && |r.value| >= |keyId| + 2
              && r.value[..|keyId| + 2] == [KeyCiphertextSeparator] + keyId + [KeyCiphertextSeparator]
              && r.value[|keyId| + 2..] == p.seal(key, data)
  {
    var keyId :- GetActiveKeyId(e);
    var key :- GetKey(e, p, keyId);
    Success(FormatKeyCiphertext(keyId, p.seal(key, data)))
  }

  /**
    Decrypts an envelope with whichever key of the bound group it names. The
    errors come in source order: a malformed envelope before any key lookup,
    an unknown or undecodable key before the cipher is invoked, and a
    message that does not authenticate last. On success the plaintext is
    exactly what the cipher opened.
   */
  function Decrypt(e: Encryption, p: Primitives, data: string): (r: Result<string, Error>)
    ensures ParseKeyCiphertext(data).Failure? ==> r == Failure(InvalidEnvelopeFormat)
    ensures ParseKeyCiphertext(data).Success? && !HasKey(e, ParseKeyCiphertext(data).value.0) ==>
              r == Failure(UnknownKeyId(ParseKeyCiphertext(data).value.0))
    ensures ParseKeyCiphertext(data).Success? && HasKey(e, ParseKeyCiphertext(data).value.0)
            && p.hexDecode(e.keys[e.keyGroup][ParseKeyCiphertext(data).value.0]).None? ==>
              r == Failure(InvalidKeyEncoding)
    ensures r.Success? <==>
              && ParseKeyCiphertext(data).Success?
              && GetKey(e, p, ParseKeyCiphertext(data).value.0).Success?
              && p.open(GetKey(e, p, ParseKeyCiphertext(data).value.0).value, ParseKeyCiphertext(data).value.1).Some?
    ensures r.Success? ==>
              var (keyId, cipherText) := ParseKeyCiphertext(data).value;
              p.open(GetKey(e, p, keyId).value, cipherText) == Some(r.value)
    ensures r.Failure? && ParseKeyCiphertext(data).Success? && GetKey(e, p, ParseKeyCiphertext(data).value.0).Success? ==>
              r.error == AuthenticationFailure
  {
    var parsed :- ParseKeyCiphertext(data);
    var key :- GetKey(e, p, parsed.0);
    match p.open(key, parsed.1)
    case Some(plain) => Success(plain)
    case None => Failure(AuthenticationFailure)
  }

  /**
    Whether the envelope was made with a key other than the group's active
    one. Only the key id is parsed, under the same three-field rule as
    Decrypt; the key id is not looked up in the key table.
   */
  function NeedsReEncrypt(e: Encryption, data: string): (r: Result<bool, Error>)
    ensures ParseKeyCiphertext(data).Failure? ==> r == Failure(InvalidEnvelopeFormat)
    ensures ParseKeyCiphertext(data).Success? && e.keyGroup !in e.activeKeyIds ==> r == Failure(ActiveKeyIdMissing)
    ensures r.Success? <==> ParseKeyCiphertext(data).Success? && e.keyGroup in e.activeKeyIds
    ensures r.Success? ==> (r.value <==> ParseKeyCiphertext(data).value.0 != e.activeKeyIds[e.keyGroup])
  {
    var parsed :- ParseKeyCiphertext(data);
    var activeKeyId :- GetActiveKeyId(e);
    Success(parsed.0 != activeKeyId)
  }

  // ---------------------------------------------------------------------
  // Rotation and round trips

  /**
    decrypt(encrypt(data)) == data, given a sound cipher, exactly when the
    active key id is free of the separator; an active id containing '$'
    makes every envelope it produces malformed.
   */
  lemma {:induction false} EncryptThenDecrypt(e: Encryption, p: Primitives, data: string)
    requires Sound(p)
    requires Encrypt(e, p, data).Success?
    ensures var keyId := e.activeKeyIds[e.keyGroup];
            && (KeyCiphertextSeparator !in keyId ==> Decrypt(e, p, Encrypt(e, p, data).value) == Success(data))
            && (KeyCiphertextSeparator in keyId ==> Decrypt(e, p, Encrypt(e, p, data).value) == Failure(InvalidEnvelopeFormat))
  {
    var keyId := e.activeKeyIds[e.keyGroup];
    var key := GetKey(e, p, keyId).value;
    var cipherText := p.seal(key, data);
    assert Encrypt(e, p, data).value == FormatKeyCiphertext(keyId, cipherText);
    assert KeyCiphertextSeparator !in cipherText;
    FormatThenParse(keyId, cipherText);
  }

  /** A fresh envelope is made with the active key, so it needs no re-encryption. */
  lemma {:induction false} EncryptedIsCurrent(e: Encryption, p: Primitives, data: string)
    requires Sound(p)
    requires Encrypt(e, p, data).Success?
    requires KeyCiphertextSeparator !in e.activeKeyIds[e.keyGroup]
    ensures NeedsReEncrypt(e, Encrypt(e, p, data).value) == Success(false)
  {
    var keyId := e.activeKeyIds[e.keyGroup];
    var cipherText := p.seal(GetKey(e, p, keyId).value, data);
    assert Encrypt(e, p, data).value == FormatKeyCiphertext(keyId, cipherText);
    FormatThenParse(keyId, cipherText);
  }

  /**
    Rotation: after the group's active id is changed to another id, an
    envelope made under the old active key reports that it needs
    re-encryption, and it still decrypts as long as the old key is kept.
   */
  lemma {:induction false} RotationDetected(e: Encryption, p: Primitives, data: string, newKeyId: string)
    requires Sound(p)
    requires Encrypt(e, p, data).Success?
    requires KeyCiphertextSeparator !in e.activeKeyIds[e.keyGroup]
    requires newKeyId != e.activeKeyIds[e.keyGroup]
    ensures var rotated := e.(activeKeyIds := e.activeKeyIds[e.keyGroup := newKeyId]);
            && NeedsReEncrypt(rotated, Encrypt(e, p, data).value) == Success(true)
            && Decrypt(rotated, p, Encrypt(e, p, data).value) == Success(data)
  {
    var keyId := e.activeKeyIds[e.keyGroup];
    var cipherText := p.seal(GetKey(e, p, keyId).value, data);
    assert Encrypt(e, p, data).value == FormatKeyCiphertext(keyId, cipherText);
    FormatThenParse(keyId, cipherText);
    EncryptThenDecrypt(e, p, data);
  }

  /**
    Decryption accepts any key id of the bound group, active or not: an
    envelope sealed under a stored key opens to its plaintext.
   */
  lemma {:induction false} DecryptAnyKeyOfGroup(e: Encryption, p: Primitives, keyId: string, key: string, plain: string)
    requires Sound(p)
    requires HasKey(e, keyId) && p.hexDecode(e.keys[e.keyGroup][keyId]) == Some(key)
    requires KeyCiphertextSeparator !in keyId
    ensures Decrypt(e, p, FormatKeyCiphertext(keyId, p.seal(key, plain))) == Success(plain)
  {
    FormatThenParse(keyId, p.seal(key, plain));
  }

  /**
    Group isolation: an envelope naming a key id the bound group lacks is
    refused with UnknownKeyId, even when another group holds that id, and
    before the cipher is invoked.
   */
  lemma {:induction false} DecryptGroupIsolation(e: Encryption, p: Primitives, keyId: string, cipherText: string)
    requires KeyCiphertextSeparator !in keyId && KeyCiphertextSeparator !in cipherText
    requires !HasKey(e, keyId)
    ensures Decrypt(e, p, FormatKeyCiphertext(keyId, cipherText)) == Failure(UnknownKeyId(keyId))
  {
    FormatThenParse(keyId, cipherText);
  }

  /**
    The operations see the tables only through the bound group's entries:
    two instances that agree on those behave alike, whatever other groups
    they configure.
   */
  lemma SameGroupSameBehaviour(e1: Encryption, e2: Encryption, p: Primitives, data: string)
    requires e1.keyGroup == e2.keyGroup
    requires (e1.keyGroup in e1.keys) == (e2.keyGroup in e2.keys)
    requires e1.keyGroup in e1.keys ==> e1.keys[e1.keyGroup] == e2.keys[e2.keyGroup]
    requires (e1.keyGroup in e1.activeKeyIds) == (e2.keyGroup in e2.activeKeyIds)
    requires e1.keyGroup in e1.activeKeyIds ==> e1.activeKeyIds[e1.keyGroup] == e2.activeKeyIds[e2.keyGroup]
    ensures Encrypt(e1, p, data) == Encrypt(e2, p, data)
    ensures Decrypt(e1, p, data) == Decrypt(e2, p, data)
    ensures NeedsReEncrypt(e1, data) == NeedsReEncrypt(e2, data)
  {
  }
}
