/** What the words of a recovery phrase open: an account key under a key derived from them, behind one
    version byte, the salt and the nonce. */
module AccountKeys {
  import opened Wrappers
  import opened Text
  import opened Crypto

  const RECOVERY_VERSION: Byte := 1
  const RECOVERY_HEADER_LEN: nat := 1 + SALT_LEN + NONCE_LEN
  const RECOVERY_KEK_DOMAIN: string := "heelonvault/recovery-key/v1\n"

  /** The same words but for spacing and case. */
  ghost predicate SameWords(s: Suite, p: string, q: string) {
    SameLowerWords(s.lower, p, q)
  }

  function DeriveRecoveryKek(s: Suite, phrase: string, salt: Bytes): Result<Bytes> {
    DeriveKey(s, RECOVERY_KEK_DOMAIN + NormalisedPhrase(s.lower, phrase), salt)
  }

  function OpenWithRecoveryPhrase(s: Suite, phrase: string, envelope: Bytes): Result<Bytes> {
    if |envelope| <= RECOVERY_HEADER_LEN || envelope[0] != RECOVERY_VERSION then Err(Validation)
    else
      var salt := envelope[1..1 + SALT_LEN];
      var payload := EncryptedPayload(envelope[1 + SALT_LEN..RECOVERY_HEADER_LEN], envelope[RECOVERY_HEADER_LEN..]);
      match DeriveRecoveryKek(s, phrase, salt)
      case Err(error) => Err(error)
      case Ok(kek) =>
        match Decrypt(s, payload, kek)
        case Some(key) => Ok(key)
        case None => Err(CryptoFailure)
  }

  /** The sealed key opens with every retyping of the phrase. */
  method SealWithRecoveryPhrase(s: Suite, phrase: string, accountKey: Bytes) returns (envelope: Bytes)
    requires s.Ideal()
    ensures forall typed: string | SameWords(s, typed, phrase) ::
      OpenWithRecoveryPhrase(s, typed, envelope) == Ok(accountKey)
    // Version, salt and nonce, then the key sealed under one derived from the words behind a fixed line.
    ensures |envelope| >= 45 && envelope[0] == 1
    ensures var kek := s.kdf("heelonvault/recovery-key/v1\n" + NormalisedPhrase(s.lower, phrase), envelope[1..33]);
      kek.Some? && envelope[45..] == s.seal(kek.value, envelope[33..45], [], accountKey)
  {
    var salt := GenerateSalt();
    var kek := DeriveRecoveryKek(s, phrase, salt).value;
    var sealed := Encrypt(s, accountKey, kek);
    var payload := sealed.value;
    envelope := [RECOVERY_VERSION] + salt + payload.nonce + payload.ciphertext;
    assert envelope[1..1 + SALT_LEN] == salt;
    assert envelope[1 + SALT_LEN..RECOVERY_HEADER_LEN] == payload.nonce;
    assert envelope[RECOVERY_HEADER_LEN..] == payload.ciphertext;
    forall typed: string | SameWords(s, typed, phrase)
      ensures OpenWithRecoveryPhrase(s, typed, envelope) == Ok(accountKey)
    {
      NormalFormIsComplete(s.lower, typed, phrase);
    }
  }

  /** An envelope that opens with a phrase opens the same way however the phrase is retyped; another
      phrase opens it only through a collision of the derivation. */
  lemma PhraseOpensHoweverTyped(s: Suite, envelope: Bytes, phrase: string, typed: string)
    requires s.Ideal()
    requires OpenWithRecoveryPhrase(s, phrase, envelope).Ok?
    ensures SameWords(s, typed, phrase) ==>
      OpenWithRecoveryPhrase(s, typed, envelope) == OpenWithRecoveryPhrase(s, phrase, envelope)
    ensures OpenWithRecoveryPhrase(s, typed, envelope).Ok? <==>
      DeriveRecoveryKek(s, typed, envelope[1..1 + SALT_LEN]) == DeriveRecoveryKek(s, phrase, envelope[1..1 + SALT_LEN])
  {
    NormalFormIsComplete(s.lower, typed, phrase);
    var salt := envelope[1..1 + SALT_LEN];
    var payload := EncryptedPayload(envelope[1 + SALT_LEN..RECOVERY_HEADER_LEN], envelope[RECOVERY_HEADER_LEN..]);
    var k1, k2 := DeriveRecoveryKek(s, phrase, salt).value, DeriveRecoveryKek(s, typed, salt).value;
    if k1 != k2 {
      WrongKeyFails(s, payload, k1, k2);
    }
  }
}
