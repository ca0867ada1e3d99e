/** The stored form of a password check: a version byte, two big-endian lengths, a salt and a body; and
    which key comes out of it. */
module PasswordEnvelopes {
  import opened Wrappers
  import opened Crypto

  const LEGACY_VERSION: Byte := 1
  const ACCOUNT_KEY_VERSION: Byte := 2
  const HEADER_LEN: nat := 5
  const U16: nat := 0x1_0000

  datatype PasswordEnvelope =
    /** Whoever reads the body has the key of every vault. */
    | Legacy(salt: Bytes, masterKey: Bytes)
    /** A random key that only the derived one uncovers. */
    | AccountKey(salt: Bytes, wrapped: EncryptedPayload)
  {
    function Version(): Byte {
      if Legacy? then LEGACY_VERSION else ACCOUNT_KEY_VERSION
    }

    function Body(): Bytes {
      match this
      case Legacy(_, masterKey) => masterKey
      case AccountKey(_, wrapped) => wrapped.nonce + wrapped.ciphertext
    }

    /** Both length fields hold the true lengths and the body has the shape its version demands. */
    predicate Fits() {
      && 1 <= |salt| < U16
      && 1 <= |Body()| < U16
      && (AccountKey? ==> wrapped.ciphertext != [])
    }
  }

  /** `(len as u16).to_be_bytes()`: the cast drops everything above 16 bits. */
  function LengthField(len: nat): (b: Bytes)
    ensures |b| == 2
    ensures b[0] as int * 256 + b[1] as int == len % U16
  {
    var n := len % U16;
    [n / 256, n % 256]
  }

  function ReadLength(hi: Byte, lo: Byte): nat {
    hi as int * 256 + lo as int
  }

  function Encode(e: PasswordEnvelope): Bytes {
    [e.Version()] + LengthField(|e.salt|) + LengthField(|e.Body()|) + e.salt + e.Body()
  }

  function Decode(bytes: Bytes): Result<PasswordEnvelope> {
    if |bytes| < HEADER_LEN then Err(Validation)
    else
      var saltLen := ReadLength(bytes[1], bytes[2]);
      var bodyLen := ReadLength(bytes[3], bytes[4]);
      if saltLen == 0 || bodyLen == 0 || |bytes| != HEADER_LEN + saltLen + bodyLen then Err(Validation)
      else
        var bodyStart := HEADER_LEN + saltLen;
        var salt := bytes[HEADER_LEN..bodyStart];
        var body := bytes[bodyStart..];
        if bytes[0] == LEGACY_VERSION then Ok(Legacy(salt, body))
        else if bytes[0] == ACCOUNT_KEY_VERSION && |body| > NONCE_LEN then
          Ok(AccountKey(salt, EncryptedPayload(body[..NONCE_LEN], body[NONCE_LEN..])))
        else Err(Validation)
  }

  /** An envelope survives encoding exactly when its lengths fit; otherwise what was written is
      refused, never misread. */
  lemma DecodeUndoesEncode(e: PasswordEnvelope)
    ensures e.Fits() ==> Decode(Encode(e)) == Ok(e)
    ensures !e.Fits() ==> Decode(Encode(e)) == Err(Validation)
  {
    var bytes := Encode(e);
    EncodedParts(e);
    hide Encode, LengthField, ReadLength;
    var saltLen, bodyLen := |e.salt| % U16, |e.Body()| % U16;
    if saltLen != 0 && bodyLen != 0 && |bytes| == HEADER_LEN + saltLen + bodyLen {
      assert saltLen == |e.salt| && bodyLen == |e.Body()|;
    }
  }

  /** The bytes of a stored envelope, one by one: version, two big-endian lengths, salt, and the key or the
      nonce and the wrapped key. */
  lemma StoredLayout(e: PasswordEnvelope)
    ensures var bytes, start := Encode(e), 5 + |e.salt|;
      && |bytes| >= start && bytes[0] == (if e.Legacy? then 1 else 2)
      && bytes[1] as int * 256 + bytes[2] as int == |e.salt| % 65536
      && bytes[3] as int * 256 + bytes[4] as int == (|bytes| - start) % 65536
      && bytes[5..start] == e.salt
      && match e
         case Legacy(_, masterKey) => bytes[start..] == masterKey
         case AccountKey(_, wrapped) =>
           |bytes| >= start + 12 && bytes[start..start + 12] == wrapped.nonce && bytes[start + 12..] == wrapped.ciphertext
  {
    EncodedParts(e);
    hide Encode, LengthField;
  }

  /** Where the parts of an encoded envelope are, and what its length fields read as. */
  lemma EncodedParts(e: PasswordEnvelope)
    ensures var bytes := Encode(e);
      && |bytes| == HEADER_LEN + |e.salt| + |e.Body()|
      && bytes[0] == e.Version()
      && ReadLength(bytes[1], bytes[2]) == |e.salt| % U16 && ReadLength(bytes[3], bytes[4]) == |e.Body()| % U16
      && bytes[HEADER_LEN..HEADER_LEN + |e.salt|] == e.salt && bytes[HEADER_LEN + |e.salt|..] == e.Body()
  {
    var bytes := Encode(e);
    var sf, bf := LengthField(|e.salt|), LengthField(|e.Body()|);
    hide LengthField;
    assert bytes[1] == sf[0] && bytes[2] == sf[1] && bytes[3] == bf[0] && bytes[4] == bf[1];
  }

  /** Accepted bytes are exactly the encodings of envelopes that fit. */
  lemma EncodeUndoesDecode(bytes: Bytes)
    ensures Decode(bytes).Ok? ==> Decode(bytes).value.Fits() && Encode(Decode(bytes).value) == bytes
    ensures Decode(bytes).Ok? <==> exists e: PasswordEnvelope :: e.Fits() && Encode(e) == bytes
  {
    if Decode(bytes).Ok? {
      AcceptedBytesReencode(bytes);
    }
    hide Encode, Decode;
    forall e: PasswordEnvelope | e.Fits() && Encode(e) == bytes
      ensures Decode(bytes).Ok?
    {
      DecodeUndoesEncode(e);
    }
  }

  lemma AcceptedBytesReencode(bytes: Bytes)
    requires Decode(bytes).Ok?
    ensures Decode(bytes).value.Fits() && Encode(Decode(bytes).value) == bytes
  {
    LengthFieldOfRead(bytes[1], bytes[2]);
    LengthFieldOfRead(bytes[3], bytes[4]);
    hide LengthField;
    var e := Decode(bytes).value;
    var bodyStart := HEADER_LEN + |e.salt|;
    FiveParts(bytes, bodyStart);
    assert e.salt == bytes[HEADER_LEN..bodyStart] && e.Body() == bytes[bodyStart..];
  }

  lemma FiveParts(bytes: Bytes, bodyStart: nat)
    requires HEADER_LEN <= bodyStart <= |bytes|
    ensures bytes == [bytes[0]] + [bytes[1], bytes[2]] + [bytes[3], bytes[4]] + bytes[HEADER_LEN..bodyStart] + bytes[bodyStart..]
  {
  }

  lemma LengthFieldOfRead(hi: Byte, lo: Byte)
    ensures LengthField(ReadLength(hi, lo)) == [hi, lo] && ReadLength(hi, lo) < U16
  {
  }

  // ---- opening -----------------------------------------------------------------------------------

  /** Either version yields at most one key per password; an error means that no key could be derived. */
  function Unlock(s: Suite, e: PasswordEnvelope, password: string): Result<Option<Bytes>> {
    match DeriveKey(s, password, e.salt)
    case Err(error) => Err(error)
    case Ok(derived) =>
      match e
      case Legacy(_, masterKey) => Ok(if derived == masterKey then Some(derived) else None)
      case AccountKey(_, wrapped) => Ok(Decrypt(s, wrapped, derived))
  }

  /** The stored bytes are an envelope that `password` opens to `key`. */
  ghost predicate Opens(s: Suite, stored: Bytes, password: string, key: Bytes) {
    && Decode(stored).Ok?
    && Unlock(s, Decode(stored).value, password) == Ok(Some(key))
  }

  lemma OpenedIsDecoded(s: Suite, stored: Bytes, password: string, key: Bytes)
    requires Opens(s, stored, password, key)
    ensures Decode(stored).Ok?
  {
  }

  predicate IsAccountKey(stored: Bytes) {
    Decode(stored).Ok? && Decode(stored).value.AccountKey?
  }

  /** Version byte as `create_user` reads it, without decoding. */
  predicate StartsAsAccountKey(stored: Bytes) {
    stored != [] && stored[0] == ACCOUNT_KEY_VERSION
  }

  /** The wrapped form of a key of this length still has a 16-bit length. */
  predicate Wrappable(s: Suite, key: Bytes) {
    NONCE_LEN + |key| + s.tagLen < U16
  }

  /** The stored form opens with the password exactly when the wrapped key still has a 16-bit length;
      otherwise it does not even decode. */
  method WrapAccountKey(s: Suite, password: string, accountKey: Bytes) returns (e: PasswordEnvelope)
    requires s.Ideal()
    ensures e.AccountKey? && (e.Fits() <==> Wrappable(s, accountKey))
    ensures Opens(s, Encode(e), password, accountKey) <==> Wrappable(s, accountKey)
    ensures IsAccountKey(Encode(e)) <==> Wrappable(s, accountKey)
    ensures forall other: string ::
      Unlock(s, e, other).Ok? && s.kdf(other, e.salt) != s.kdf(password, e.salt) ==> Unlock(s, e, other).value == None
  {
    var salt := GenerateSalt();
    var kek := DeriveKey(s, password, salt).value;
    var wrapped := Encrypt(s, accountKey, kek);
    e := PasswordEnvelope.AccountKey(salt, wrapped.value);
    DecodeUndoesEncode(e);
    forall other: string | Unlock(s, e, other).Ok? && s.kdf(other, salt) != s.kdf(password, salt)
      ensures Unlock(s, e, other).value == None
    {
      WrongKeyFails(s, wrapped.value, kek, DeriveKey(s, other, salt).value);
    }
  }

  /** A key that came out of a stored envelope can always be wrapped again. */
  lemma UnlockedKeyIsWrappable(s: Suite, stored: Bytes, password: string, key: Bytes)
    requires s.Ideal()
    requires Opens(s, stored, password, key)
    ensures Wrappable(s, key)
    ensures !IsAccountKey(stored) ==> |key| == KEY_LEN
  {
    EncodeUndoesDecode(stored);
    var e := Decode(stored).value;
    if e.AccountKey? {
      var kek := DeriveKey(s, password, e.salt).value;
      assert s.OpensOnlySealed();
      assert e.wrapped.ciphertext == s.seal(kek, e.wrapped.nonce, [], key);
      SealOpens(s, kek, e.wrapped.nonce, key);
    }
  }

  method DeriveLegacy(s: Suite, password: string) returns (e: PasswordEnvelope)
    requires s.Ideal()
    ensures e.Legacy? && e.Fits() && |e.masterKey| == KEY_LEN
    ensures Opens(s, Encode(e), password, e.masterKey)
  {
    var salt := GenerateSalt();
    e := PasswordEnvelope.Legacy(salt, DeriveKey(s, password, salt).value);
    DecodeUndoesEncode(e);
  }

  /** A password opens an envelope sealed for another one only through a collision of the derivation:
      the account key depends on the derived key alone. */
  lemma OtherPasswordOpensOnlyByCollision(s: Suite, e: PasswordEnvelope, password: string, other: string)
    requires s.Ideal()
    requires Unlock(s, e, password).Ok? && Unlock(s, e, password).value.Some?
    requires Unlock(s, e, other).Ok?
    ensures Unlock(s, e, other).value.Some? <==> s.kdf(other, e.salt) == s.kdf(password, e.salt)
    ensures Unlock(s, e, other).value.Some? ==> Unlock(s, e, other) == Unlock(s, e, password)
  {
    var k1, k2 := DeriveKey(s, password, e.salt).value, DeriveKey(s, other, e.salt).value;
    if e.AccountKey? && k1 != k2 {
      WrongKeyFails(s, e.wrapped, k1, k2);
    }
  }
}
