/** A login that is held up between its two readings of the clock can use a code a second time: one run
    of two accepted calls, for every ideal suite, generator, secret and step. */
module TotpWitness {
  import opened Wrappers
  import opened Crypto
  import opened PasswordEnvelopes
  import opened Tables
  import opened AuthServices
  import opened TotpServices
  import opened HierarchyWitness

  /** The password opens a key under which the stored secret of the account reads. */
  ghost predicate SecretOpens(s: Suite, row: UserRow, creds: Credentials, password: Bytes, secret: string, key: Bytes) {
    && OpensFor(s, creds, row.username, password, key) && row.totpSecret.Some?
    && ReadStored(s, row.totpSecret.value, key) == UnderSessionKey(s.utf8(secret))
  }

  /** One account with a second factor, and the password that opens it. */
  lemma AccountWithTotp(s: Suite, name: string, password: Bytes, secret: string) returns (db: Database, creds: Credentials)
    requires s.Ideal() && s.fromUtf8(password).Some?
    ensures 0 in db.users && db.users[0].username == name && db.users[0].totpSecret.Some? && UniqueUsernames(db)
    ensures exists key :: SecretOpens(s, db.users[0], creds, password, secret, key)
  {
    hide Suite.Ideal, Opens;
    var key := Derived(s, []);
    var stored := WrappedEnvelope(s, s.fromUtf8(password).value, key);
    var blob := Sealed(s, key, s.utf8(secret));
    SealedOpens(s, key, s.utf8(secret));
    SealedIsLong(s, key, s.utf8(secret));
    db := Database(map[0 := UserRow(name, Some(stored), None, None, Some(blob))], map[], map[], map[], map[]);
    creds := map[name := stored];
    assert SecretOpens(s, db.users[0], creds, password, secret, key);
  }

  lemma SealedIsLong(s: Suite, key: Bytes, plaintext: Bytes)
    requires s.Ideal() && |key| == KEY_LEN
    ensures |Sealed(s, key, plaintext)| > NONCE_LEN
  {
    assert s.SealsIdeally();
  }

  /** The code of a secret in a step proves the second factor whenever the step is valid. */
  lemma CodeProves(s: Suite, g: Generator, db: Database, creds: Credentials, name: string, password: Bytes, secret: string,
                   step: int, at: int)
    requires s.Ideal() && g.wellFormed(secret) && ValidFor(step, at)
    requires 0 in db.users && db.users[0].username == name && db.users[0].totpSecret.Some?
    requires exists key :: SecretOpens(s, db.users[0], creds, password, secret, key)
    ensures ProvesSecondFactor(s, g, db, creds, name, password, g.code(secret, step), at)
  {
    hide OpensFor, ReadStored;
    var key :| SecretOpens(s, db.users[0], creds, password, secret, key);
    assert s.EncodesText();
    assert s.fromUtf8(s.utf8(secret)) == Some(secret);
    assert CurrentCode(s, g, ReadStored(s, db.users[0].totpSecret.value, key), g.code(secret, step), at);
  }

  /** A secret sealed under the fixed key of the first releases proves the second factor just so, whatever
      other key the password opens. */
  lemma LegacySecretProves(s: Suite, g: Generator, db: Database, creds: Credentials, u: UserId, password: Bytes, key: Bytes,
                           secret: string, nonce: Nonce, step: int, at: int)
    requires s.Ideal() && g.wellFormed(secret) && ValidFor(step, at)
    requires u in db.users && OpensFor(s, creds, db.users[u].username, password, key)
    requires var fixed := seq(32, _ => 0x41);
      key != fixed && db.users[u].totpSecret == Some(nonce + s.seal(fixed, nonce, [], s.utf8(secret)))
    ensures ReadStored(s, db.users[u].totpSecret.value, key) == UnderLegacyKey(s.utf8(secret))
    ensures ProvesSecondFactor(s, g, db, creds, db.users[u].username, password, g.code(secret, step), at)
  {
    hide OpensFor, Unlock, Decode;
    var fixed: Bytes := seq(32, _ => 0x41);
    var blob := db.users[u].totpSecret.value;
    assert fixed == LEGACY_DEV_MASTER_KEY;
    SealOpens(s, fixed, nonce, s.utf8(secret));
    assert blob[..NONCE_LEN] == nonce && blob[NONCE_LEN..] == s.seal(fixed, nonce, [], s.utf8(secret));
    BlobOpensUnderOneKey(s, NonceCiphertext, blob, fixed, key);
    assert s.EncodesText();
    assert s.fromUtf8(s.utf8(secret)) == Some(secret);
    assert CurrentCode(s, g, ReadStored(s, blob, key), g.code(secret, step), at);
  }

  /** The first call comes as early in the validity of the step as can be, the second is checked in its
      last second and reaches the guard one second later, 90 seconds after the first. */
  lemma DelayedReplayHappens(s: Suite, g: Generator, name: string, password: Bytes, secret: string, step: int)
    returns (guards: seq<Guard>, calls: seq<LoginCall>)
    requires s.Ideal() && s.fromUtf8(password).Some?
    requires g.wellFormed(secret) && IsValidTotpCode(g.code(secret, step))
    ensures LoginRun(s, g, guards, calls) && |calls| == 2
    ensures calls[0].Accepted() && calls[1].Accepted() && calls[0].username == calls[1].username == name
    ensures calls[0].code == calls[1].code == g.code(secret, step)
    ensures ValidFor(step, calls[0].checkedAt) && ValidFor(step, calls[1].checkedAt)
    ensures calls[0].recordedAt == calls[0].checkedAt && calls[1].recordedAt == calls[1].checkedAt + 1
  {
    hide SecretOpens, ProvesSecondFactor, Suite.Ideal, IsValidTotpCode;
    var db, creds := AccountWithTotp(s, name, password, secret);
    var code, start := g.code(secret, step), TOTP_STEP * (step - 1);
    StepBounds(step);
    CodeProves(s, g, db, creds, name, password, secret, step, start);
    CodeProves(s, g, db, creds, name, password, secret, step, start + 89);
    assert |code| == TOTP_DIGITS by {
      CodeLength(code);
    }
    var key := ReplayKey(name, code);
    guards := [map[], map[key := start + 90], map[key := start + 180]];
    calls := [LoginCall(db, creds, name, password, code, start, start, Ok(true)),
              LoginCall(db, creds, name, password, code, start + 89, start + 90, Ok(true))];
    GuardAcceptsTwice(name, code, start);
    assert LoginStep(s, g, guards[0], calls[0], guards[1]);
    assert LoginStep(s, g, guards[1], calls[1], guards[2]);
  }

  lemma CodeLength(code: string)
    requires IsValidTotpCode(code)
    ensures |code| == TOTP_DIGITS
  {
  }

  lemma StepBounds(step: int)
    ensures ValidFor(step, TOTP_STEP * (step - 1)) && ValidFor(step, TOTP_STEP * (step - 1) + 89)
  {
    assert TOTP_STEP * (step - 1) / TOTP_STEP == step - 1;
    assert (TOTP_STEP * (step - 1) + 89) / TOTP_STEP == step + 1;
  }

  lemma GuardAcceptsTwice(name: string, code: string, start: int)
    ensures var key := ReplayKey(name, code);
      && GuardAccepts(map[], name, code, start, map[key := start + 90])
      && GuardAccepts(map[key := start + 90], name, code, start + 90, map[key := start + 180])
  {
    hide ReplayKey;
  }
}
