/**
  Concrete cases for the current service: sample envelopes accepted and
  rejected by the parser, and a two-key group whose active key is rotated.
 */
module Scenarios {
  import opened Wrappers
  import opened Crypto
  import opened SymmetricKeyEncryption

  /** A non-empty leading field is accepted and dropped. */
  lemma ParseIgnoresLeadingField()
    ensures ParseKeyCiphertext("x$1$c") == Success(("1", "c"))
  {
    ParseKeyCiphertextAccepts("x", "1", "c");
    assert "x" + "$" + "1" + "$" + "c" == "x$1$c";
  }

  /** An empty key id is accepted. */
  lemma ParseAcceptsEmptyKeyId()
    ensures ParseKeyCiphertext("$$c") == Success(("", "c"))
  {
    ParseKeyCiphertextAccepts("", "", "c");
    assert "" + "$" + "" + "$" + "c" == "$$c";
  }

  /** Too few fields: the empty string and a string without separators. */
  lemma ParseRejectsOneField()
    ensures ParseKeyCiphertext("") == Failure(InvalidEnvelopeFormat)
    ensures ParseKeyCiphertext("not-an-envelope") == Failure(InvalidEnvelopeFormat)
  {
    var none := "not-an-envelope";
    assert '$' !in none;
    ParseRejects(none);
  }

  /** Three or more separators are always too many, whatever lies between them. */
  lemma ParseRejectsThreeSeparators(a: string, b: string, c: string, d: string)
    ensures ParseKeyCiphertext(a + "$" + b + "$" + c + "$" + d) == Failure(InvalidEnvelopeFormat)
  {
  }

  /** Too many fields: "a$b$c$d" has four pieces. */
  lemma ParseRejectsFourFields()
    ensures ParseKeyCiphertext("a$b$c$d") == Failure(InvalidEnvelopeFormat)
  {
  }

  /** Too many fields: "$only$two$wait$four$parts" has six pieces. */
  lemma ParseRejectsSixFields()
    ensures ParseKeyCiphertext("$only$two$wait$four$parts") == Failure(InvalidEnvelopeFormat)
  {
  }

  /** Group "G" with keys "1" and "2", "2" active; the key texts are opaque. */
  function TwoKeyGroup(hex1: string, hex2: string, active: string): (e: Encryption)
    ensures e.keyGroup == "G" && "G" in e.activeKeyIds && e.activeKeyIds["G"] == active
    ensures HasKey(e, "1") && HasKey(e, "2") && !HasKey(e, "99")
  {
    Encryption("G", map["G" := map["1" := hex1, "2" := hex2]], map["G" := active])
  }

  /**
    Encrypting "hello" under active key "2" gives an envelope starting with
    "$2$" that decrypts to "hello" and is current; once "1" is made active the
    same envelope needs re-encryption and still decrypts.
   */
  lemma {:induction false} RotationScenario(p: Primitives, hex1: string, hex2: string, key2: string)
    requires Sound(p)
    requires p.hexDecode(hex2) == Some(key2)
    ensures var e := TwoKeyGroup(hex1, hex2, "2");
            var envelope := Encrypt(e, p, "hello");
            && envelope.Success?
            && envelope.value[..3] == "$2$"
            && Decrypt(e, p, envelope.value) == Success("hello")
            && NeedsReEncrypt(e, envelope.value) == Success(false)
            && NeedsReEncrypt(TwoKeyGroup(hex1, hex2, "1"), envelope.value) == Success(true)
            && Decrypt(TwoKeyGroup(hex1, hex2, "1"), p, envelope.value) == Success("hello")
  {
    var e := TwoKeyGroup(hex1, hex2, "2");
    assert GetKey(e, p, "2") == Success(key2);
    EncryptThenDecrypt(e, p, "hello");
    EncryptedIsCurrent(e, p, "hello");
    RotationDetected(e, p, "hello", "1");
    assert e.(activeKeyIds := e.activeKeyIds[e.keyGroup := "1"]) == TwoKeyGroup(hex1, hex2, "1");
  }

  /** "$99$abc" names a key the group does not hold. */
  lemma UnknownKeyScenario(p: Primitives, hex1: string, hex2: string)
    ensures Decrypt(TwoKeyGroup(hex1, hex2, "2"), p, "$99$abc") == Failure(UnknownKeyId("99"))
  {
    DecryptGroupIsolation(TwoKeyGroup(hex1, hex2, "2"), p, "99", "abc");
    assert FormatKeyCiphertext("99", "abc") == "$99$abc";
  }

  /** An instance bound to group "A" does not use the key "k" that only group "B" holds. */
  lemma GroupIsolationScenario(p: Primitives, hexA: string, hexB: string, cipherText: string)
    requires '$' !in cipherText
    ensures var e := Encryption("A", map["A" := map["a" := hexA], "B" := map["k" := hexB]], map["A" := "a"]);
            Decrypt(e, p, FormatKeyCiphertext("k", cipherText)) == Failure(UnknownKeyId("k"))
  {
    var e := Encryption("A", map["A" := map["a" := hexA], "B" := map["k" := hexB]], map["A" := "a"]);
    DecryptGroupIsolation(e, p, "k", cipherText);
  }
}
