/** The libraries every service is written against, as a record of functions: an ideal AEAD (section 2
    of RFC 5116), a key derivation (RFC 9106), UTF-8 and lower-casing.
    Nothing here depends on one cipher: the laws are a hypothesis (`Suite.Ideal`), shown satisfiable
    by `IdealSuiteExists`. */
module Crypto {
  import opened Text
  import opened Wrappers

  type Byte = x: int | 0 <= x < 256
  type Bytes = seq<Byte>

  const NONCE_LEN: nat := 12
  const KEY_LEN: nat := 32
  const SALT_LEN: nat := 32
  const ENVELOPE_VERSION: Byte := 1

  type Nonce = n: Bytes | |n| == NONCE_LEN witness [0, 0, 0, 0, 0, 0, 0, 0, 0, 0, 0, 0]

  const ZERO_KEY: Bytes :=
    [0, 0, 0, 0, 0, 0, 0, 0, 0, 0, 0, 0, 0, 0, 0, 0, 0, 0, 0, 0, 0, 0, 0, 0, 0, 0, 0, 0, 0, 0, 0, 0]

  type Key = k: Bytes | |k| == KEY_LEN witness ZERO_KEY

  type Salt = k: Bytes | |k| == SALT_LEN witness ZERO_KEY

  datatype EncryptedPayload = EncryptedPayload(nonce: Nonce, ciphertext: Bytes)

  /** `seal` and `open` take key, nonce, associated data and text. `origin` reads off a ciphertext the
      key, nonce and associated data it was sealed with: it states that no ciphertext is shared. */
  datatype Suite = Suite(
    seal: (Bytes, Bytes, Bytes, Bytes) -> Bytes,
    open: (Bytes, Bytes, Bytes, Bytes) -> Option<Bytes>,
    origin: Bytes -> (Bytes, Bytes, Bytes),
    tagLen: nat,
    kdf: (string, Bytes) -> Option<Bytes>,
    utf8: string -> Bytes,
    fromUtf8: Bytes -> Option<string>,
    lower: string -> string)
  {
    ghost predicate SealsIdeally() {
      forall k: Bytes, n: Bytes, a: Bytes, p: Bytes :: |k| == KEY_LEN && |n| == NONCE_LEN ==>
        && open(k, n, a, seal(k, n, a, p)) == Some(p)
        && origin(seal(k, n, a, p)) == (k, n, a)
        && |seal(k, n, a, p)| > 0
        && (a == [] ==> |seal(k, n, a, p)| == |p| + tagLen)
    }

    ghost predicate OpensOnlySealed() {
      forall k: Bytes, n: Bytes, a: Bytes, c: Bytes ::
        |k| == KEY_LEN && |n| == NONCE_LEN && open(k, n, a, c).Some? ==>
        c == seal(k, n, a, open(k, n, a, c).value)
    }

    ghost predicate DerivesKeys() {
      forall p: string, t: Bytes ::
        && (|t| == SALT_LEN ==> kdf(p, t).Some?)
        && (kdf(p, t).Some? ==> |kdf(p, t).value| == KEY_LEN)
    }

    ghost predicate EncodesText() {
      && (forall t: string :: fromUtf8(utf8(t)) == Some(t))
      && (forall b: Bytes :: fromUtf8(b).Some? ==> utf8(fromUtf8(b).value) == b)
    }

    ghost predicate Ideal() {
      && SealsIdeally()
      && OpensOnlySealed()
      && DerivesKeys()
      && EncodesText()
      && KeepsWords(lower)
      && 0 < tagLen <= 64
    }
  }

  /** Argon2id; the salt is checked before the library is called. */
  function DeriveKey(s: Suite, password: string, salt: Bytes): (r: Result<Bytes>)
    ensures s.Ideal() && r.Ok? ==> |r.value| == KEY_LEN
    ensures s.Ideal() && |salt| == SALT_LEN ==> r.Ok?
    ensures salt == [] ==> r.Err?
  {
    if salt == [] then Err(CryptoFailure)
    else match s.kdf(password, salt)
         case Some(k) => Ok(k)
         case None => Err(CryptoFailure)
  }

  /** Fails for a key that is not 32 bytes long and for any altered or foreign ciphertext. */
  function Decrypt(s: Suite, payload: EncryptedPayload, key: Bytes): Option<Bytes> {
    if |key| != KEY_LEN then None else s.open(key, payload.nonce, [], payload.ciphertext)
  }

  lemma SealOpens(s: Suite, key: Key, nonce: Nonce, plaintext: Bytes)
    ensures s.Ideal() ==> s.open(key, nonce, [], s.seal(key, nonce, [], plaintext)) == Some(plaintext)
    ensures s.Ideal() ==> |s.seal(key, nonce, [], plaintext)| == |plaintext| + s.tagLen
  {
    if s.Ideal() {
      assert s.SealsIdeally();
      var a: Bytes := [];
      assert s.open(key, nonce, a, s.seal(key, nonce, a, plaintext)) == Some(plaintext);
    }
  }

  /** The nonce is drawn at random, so any 12 bytes. */
  method Encrypt(s: Suite, plaintext: Bytes, key: Bytes) returns (r: Result<EncryptedPayload>)
    ensures r.Ok? <==> |key| == KEY_LEN
    ensures r.Err? ==> r.error == CryptoFailure
    ensures r.Ok? ==> r.value.ciphertext == s.seal(key, r.value.nonce, [], plaintext)
    ensures s.Ideal() && r.Ok? ==> Decrypt(s, r.value, key) == Some(plaintext)
    ensures s.Ideal() && r.Ok? ==> |r.value.ciphertext| == |plaintext| + s.tagLen
  {
    if |key| != KEY_LEN {
      return Err(CryptoFailure);
    }
    var nonce: Nonce := *;
    SealOpens(s, key, nonce, plaintext);
    r := Ok(EncryptedPayload(nonce, s.seal(key, nonce, [], plaintext)));
  }

  method GenerateKey() returns (key: Key) {
    key := *;
  }

  method GenerateSalt() returns (salt: Salt) {
    salt := *;
  }

  lemma OriginKey(s: Suite, payload: EncryptedPayload, key: Bytes)
    requires s.Ideal()
    requires Decrypt(s, payload, key).Some?
    ensures s.origin(payload.ciphertext).0 == key
  {
    assert s.OpensOnlySealed() && s.SealsIdeally();
    var p := Decrypt(s, payload, key).value;
    assert payload.ciphertext == s.seal(key, payload.nonce, [], p);
  }

  lemma WrongKeyFails(s: Suite, payload: EncryptedPayload, key: Bytes, other: Bytes)
    requires s.Ideal()
    requires Decrypt(s, payload, key).Some?
    requires other != key
    ensures Decrypt(s, payload, other).None?
  {
    OriginKey(s, payload, key);
    if Decrypt(s, payload, other).Some? {
      OriginKey(s, payload, other);
    }
  }

  // ---- blobs stored in one column ------------------------------------------------------------

  /** Most columns: the nonce and then the ciphertext, with no version. */
  function Serialize(payload: EncryptedPayload): Bytes {
    payload.nonce + payload.ciphertext
  }

  function Deserialize(bytes: Bytes): Result<EncryptedPayload> {
    if |bytes| < NONCE_LEN then Err(Storage)
    else Ok(EncryptedPayload(bytes[..NONCE_LEN], bytes[NONCE_LEN..]))
  }

  /** The legacy recovery phrase has a version byte in front. */
  function EncodeEnvelope(payload: EncryptedPayload): Bytes {
    [ENVELOPE_VERSION] + payload.nonce + payload.ciphertext
  }

  function DecodeEnvelope(bytes: Bytes): Result<EncryptedPayload> {
    if |bytes| <= 1 + NONCE_LEN then Err(Validation)
    else if bytes[0] != ENVELOPE_VERSION then Err(Validation)
    else Ok(EncryptedPayload(bytes[1..1 + NONCE_LEN], bytes[1 + NONCE_LEN..]))
  }

  /** Both layouts are exact: what is written is read back, and only written bytes are read. */
  lemma BlobLayoutsRoundTrip(payload: EncryptedPayload, bytes: Bytes)
    ensures Deserialize(Serialize(payload)) == Ok(payload)
    ensures DecodeEnvelope(EncodeEnvelope(payload)) == Ok(payload) <==> payload.ciphertext != []
    ensures Deserialize(bytes).Ok? ==> Serialize(Deserialize(bytes).value) == bytes
    ensures DecodeEnvelope(bytes).Ok? ==> EncodeEnvelope(DecodeEnvelope(bytes).value) == bytes
    ensures Deserialize(bytes).Ok? <==> |bytes| >= 12
    ensures DecodeEnvelope(bytes).Ok? <==> |bytes| > 13 && bytes[0] == 1
    ensures var b := EncodeBlob(NonceCiphertext, payload); |b| >= 12 && b[..12] == payload.nonce && b[12..] == payload.ciphertext
    ensures var b := EncodeBlob(Versioned, payload);
      |b| >= 13 && b[0] == 1 && b[1..13] == payload.nonce && b[13..] == payload.ciphertext
  {
    var e := EncodeEnvelope(payload);
    assert e[1..1 + NONCE_LEN] == payload.nonce;
    assert e[1 + NONCE_LEN..] == payload.ciphertext;
    if DecodeEnvelope(bytes).Ok? {
      assert bytes == [bytes[0]] + bytes[1..1 + NONCE_LEN] + bytes[1 + NONCE_LEN..];
    }
  }

  datatype BlobFormat = Versioned | NonceCiphertext

  function DecodeBlob(format: BlobFormat, bytes: Bytes): Result<EncryptedPayload> {
    match format
    case Versioned => DecodeEnvelope(bytes)
    case NonceCiphertext => Deserialize(bytes)
  }

  function EncodeBlob(format: BlobFormat, payload: EncryptedPayload): Bytes {
    match format
    case Versioned => EncodeEnvelope(payload)
    case NonceCiphertext => Serialize(payload)
  }

  /** What a stored blob reads as under `key`, if it reads at all. */
  function ReadBlob(s: Suite, format: BlobFormat, bytes: Bytes, key: Bytes): Option<Bytes> {
    match DecodeBlob(format, bytes)
    case Ok(payload) => Decrypt(s, payload, key)
    case Err(_) => None
  }

  function OpenBlob(s: Suite, bytes: Bytes, key: Bytes): Option<Bytes> {
    ReadBlob(s, NonceCiphertext, bytes, key)
  }

  method SealBlob(s: Suite, format: BlobFormat, plaintext: Bytes, key: Bytes) returns (r: Result<Bytes>)
    requires s.Ideal()
    ensures r.Ok? <==> |key| == KEY_LEN
    ensures r.Err? ==> r.error == CryptoFailure
    ensures r.Ok? ==> ReadBlob(s, format, r.value, key) == Some(plaintext)
    ensures r.Ok? ==> forall other: Bytes | other != key :: ReadBlob(s, format, r.value, other).None?
  {
    var payload :- Encrypt(s, plaintext, key);
    r := Ok(EncodeBlob(format, payload));
    BlobLayoutsRoundTrip(payload, []);
    forall other: Bytes | other != key
      ensures ReadBlob(s, format, r.value, other).None?
    {
      WrongKeyFails(s, payload, key, other);
    }
  }

  /** A blob opens under at most one key. */
  lemma BlobOpensUnderOneKey(s: Suite, format: BlobFormat, bytes: Bytes, k1: Bytes, k2: Bytes)
    requires s.Ideal()
    requires ReadBlob(s, format, bytes, k1).Some?
    ensures ReadBlob(s, format, bytes, k2).Some? <==> k1 == k2
  {
    if k1 != k2 {
      WrongKeyFails(s, DecodeBlob(format, bytes).value, k1, k2);
    }
  }

  // ---- the laws can be met ---------------------------------------------------------------------

  /** Self-delimiting form of the associated data. */
  function Frame(a: Bytes): (f: Bytes)
    ensures |f| == 2 * |a| + 1
  {
    if a == [] then [0] else [1, a[0]] + Frame(a[1..])
  }

  function Unframe(c: Bytes): (Bytes, Bytes) {
    if |c| >= 2 && c[0] == 1 then
      var (a, rest) := Unframe(c[2..]);
      ([c[1]] + a, rest)
    else if |c| >= 1 then ([], c[1..])
    else ([], [])
  }

  lemma {:induction false} UnframeFrame(a: Bytes, rest: Bytes)
    ensures Unframe(Frame(a) + rest) == (a, rest)
  {
    var c := Frame(a) + rest;
    if a == [] {
      assert c[1..] == rest;
    } else {
      UnframeFrame(a[1..], rest);
      assert c[2..] == Frame(a[1..]) + rest;
      assert [a[0]] + a[1..] == a;
    }
  }

  predicate IsScalar(c: int) {
    0 <= c < 0xD800 || 0xE000 <= c < 0x11_0000
  }

  function ToyChar(c: char): (b: Bytes)
    ensures |b| == 3
  {
    [c as int / 65536, c as int / 256 % 256, c as int % 256]
  }

  function FromToyChar(b: Bytes): (r: Option<char>)
    requires |b| == 3
    ensures r.Some? ==> ToyChar(r.value) == b
  {
    var n: int := b[0] as int * 65536 + b[1] as int * 256 + b[2] as int;
    ThreeDigits(b[0], b[1], b[2]);
    if IsScalar(n) then Some(n as char) else None
  }

  lemma ThreeDigits(high: Byte, mid: Byte, low: Byte)
    ensures var n := high as int * 65536 + mid as int * 256 + low as int;
      n / 65536 == high && n / 256 % 256 == mid && n % 256 == low
  {
    var n: int := high as int * 65536 + mid as int * 256 + low as int;
    assert n / 256 == high as int * 256 + mid as int;
  }

  lemma FromToyCharToyChar(c: char)
    ensures FromToyChar(ToyChar(c)) == Some(c)
  {
    var n := c as int;
    assert n / 65536 == n / 256 / 256;
  }

  function ToyCode(t: string): (b: Bytes)
    ensures |b| == 3 * |t|
  {
    if t == [] then [] else ToyChar(t[0]) + ToyCode(t[1..])
  }

  function ToyDecode(b: Bytes): (r: Option<string>)
    ensures r.Some? ==> ToyCode(r.value) == b
  {
    if b == [] then Some([])
    else if |b| < 3 then None
    else
      match (FromToyChar(b[..3]), ToyDecode(b[3..]))
      case (Some(c), Some(t)) =>
        assert b == b[..3] + b[3..];
        assert ([c] + t)[1..] == t;
        Some([c] + t)
      case _ => None
  }

  lemma {:induction false} ToyDecodeCode(t: string)
    ensures ToyDecode(ToyCode(t)) == Some(t)
  {
    if t != [] {
      hide ToyChar;
      hide FromToyChar;
      var b := ToyCode(t);
      ToyDecodeCode(t[1..]);
      FromToyCharToyChar(t[0]);
      assert b[..3] == ToyChar(t[0]) && b[3..] == ToyCode(t[1..]);
      assert [t[0]] + t[1..] == t;
    }
  }

  function ToySeal(k: Bytes, n: Bytes, a: Bytes, p: Bytes): Bytes {
    Frame(a) + (k + (n + p))
  }

  function ToyOpen(k: Bytes, n: Bytes, a: Bytes, c: Bytes): Option<Bytes> {
    var head := |Frame(a)| + |k| + |n|;
    if head <= |c| && ToySeal(k, n, a, c[head..]) == c then Some(c[head..]) else None
  }

  function ToyOrigin(c: Bytes): (Bytes, Bytes, Bytes) {
    var (a, rest) := Unframe(c);
    if |rest| < KEY_LEN + NONCE_LEN then ([], [], a)
    else (rest[..KEY_LEN], rest[KEY_LEN..KEY_LEN + NONCE_LEN], a)
  }

  function ToySuite(): Suite {
    Suite(ToySeal, ToyOpen, ToyOrigin, 45,
          (p: string, t: Bytes) => if |t| >= 8 then Some(ZERO_KEY) else None,
          ToyCode, ToyDecode, AsciiLower)
  }

  lemma ToySealIsIdeal(k: Bytes, n: Bytes, a: Bytes, p: Bytes)
    requires |k| == KEY_LEN && |n| == NONCE_LEN
    ensures ToyOpen(k, n, a, ToySeal(k, n, a, p)) == Some(p)
    ensures ToyOrigin(ToySeal(k, n, a, p)) == (k, n, a)
    ensures |ToySeal(k, n, a, p)| == 2 * |a| + 1 + 44 + |p|
  {
    var c := ToySeal(k, n, a, p);
    var rest := k + (n + p);
    UnframeFrame(a, rest);
    assert rest[..KEY_LEN] == k;
    assert rest[KEY_LEN..KEY_LEN + NONCE_LEN] == n;
    assert c[|Frame(a)| + |k| + |n|..] == p;
  }

  /** `Suite.Ideal` is not a contradictory hypothesis. */
  lemma IdealSuiteExists()
    ensures exists s: Suite :: s.Ideal()
  {
    ToySuiteIsIdeal();
  }

  lemma ToySuiteIsIdeal()
    ensures ToySuite().Ideal()
  {
    var s := ToySuite();
    forall k: Bytes, n: Bytes, a: Bytes, p: Bytes | |k| == KEY_LEN && |n| == NONCE_LEN
      ensures s.open(k, n, a, s.seal(k, n, a, p)) == Some(p)
      ensures s.origin(s.seal(k, n, a, p)) == (k, n, a)
      ensures |s.seal(k, n, a, p)| > 0
      ensures a == [] ==> |s.seal(k, n, a, p)| == |p| + s.tagLen
    {
      ToySealIsIdeal(k, n, a, p);
    }
    forall t: string
      ensures s.fromUtf8(s.utf8(t)) == Some(t)
    {
      ToyDecodeCode(t);
    }
    assert s.SealsIdeally();
    assert s.Ideal();
  }
}
