/** Credentials held in memory, by username, and the state the services share: the database plus that
    map. */
module AuthServices {
  import opened Wrappers
  import opened Text
  import opened Crypto
  import opened PasswordEnvelopes
  import opened Tables

  type Credentials = map<string, Bytes>

  datatype World = World(db: Database, creds: Credentials)

  function DecodeText(s: Suite, bytes: Bytes): Result<string> {
    match s.fromUtf8(bytes)
    case Some(text) => Ok(text)
    case None => Err(Validation)
  }

  predicate HasAccountKeyUser(creds: Credentials) {
    exists name :: name in creds && StartsAsAccountKey(creds[name])
  }

  /** Memory after a start: one entry per name with a stored envelope, and no other. */
  ghost predicate LoadedFrom(db: Database, creds: Credentials) {
    && (forall u :: u in db.users && db.users[u].passwordEnvelope.Some? ==>
          db.users[u].username in creds)
    && (forall name :: name in creds ==>
          exists u :: u in db.users && db.users[u].username == name && db.users[u].passwordEnvelope == Some(creds[name]))
  }

  predicate Loadable(row: UserRow) {
    row.passwordEnvelope.Some? ==> !IsBlank(row.username) && Decode(row.passwordEnvelope.value).Ok?
  }

  /** `list_all_password_envelopes`, upserted one by one; the first one that is refused ends the start-up. */
  method LoadCredentials(db: Database) returns (r: Result<Credentials>)
    ensures r.Ok? <==> forall u :: u in db.users ==> Loadable(db.users[u])
    ensures r.Ok? ==> LoadedFrom(db, r.value)
    ensures r.Ok? <==> forall u :: u in db.users && db.users[u].passwordEnvelope.Some? ==>
      !IsBlank(db.users[u].username) && Decode(db.users[u].passwordEnvelope.value).Ok?
    ensures r.Ok? ==> forall u :: u in db.users && db.users[u].passwordEnvelope.Some? ==> db.users[u].username in r.value
  {
    hide Decode, IsBlank;
    var creds: Credentials := map[];
    var left := db.users.Keys;
    while left != {}
      invariant left <= db.users.Keys
      invariant forall u :: u in db.users && u !in left ==> Loadable(db.users[u])
      invariant forall u :: u in db.users && u !in left && db.users[u].passwordEnvelope.Some? ==>
        db.users[u].username in creds
      invariant forall name :: name in creds ==>
        exists u :: u in db.users && db.users[u].username == name && db.users[u].passwordEnvelope == Some(creds[name])
      decreases |left|
    {
      var u :| u in left;
      if !Loadable(db.users[u]) {
        return Err(Validation);
      }
      if db.users[u].passwordEnvelope.Some? {
        creds := creds[db.users[u].username := db.users[u].passwordEnvelope.value];
      }
      left := left - {u};
    }
    r := Ok(creds);
  }

  class AuthService {
    const suite: Suite
    var credentials: Credentials
    var shutdown: bool

    constructor (suite: Suite, credentials: Credentials)
      ensures this.suite == suite && this.credentials == credentials && !shutdown
    {
      this.suite := suite;
      this.credentials := credentials;
      shutdown := false;
    }

    function StoredEnvelope(username: string): Result<Option<PasswordEnvelope>>
      reads this
    {
      if username !in credentials then Ok(None)
      else match Decode(credentials[username])
           case Ok(e) => Ok(Some(e))
           case Err(error) => Err(error)
    }

    function GetPasswordEnvelope(username: string): (r: Result<Bytes>)
      reads this
      ensures r.Ok? <==> !shutdown && username in credentials
      ensures r.Ok? ==> r.value == credentials[username]
    {
      if shutdown then Err(ShutdownInProgress)
      else if username !in credentials then Err(InvalidCredentials)
      else Ok(credentials[username])
    }

    /** The key a password opens for a known username; `None` for a wrong password or username. */
    function DeriveKeyIfValid(username: string, password: Bytes): (r: Result<Option<Bytes>>)
      reads this
      ensures r.Ok? && r.value.Some? ==>
        && !shutdown && username in credentials && suite.fromUtf8(password).Some?
        && Opens(suite, credentials[username], suite.fromUtf8(password).value, r.value.value)
      ensures !shutdown && username in credentials && suite.fromUtf8(password).Some? ==>
        forall key: Bytes | Opens(suite, credentials[username], suite.fromUtf8(password).value, key) ::
          r == Ok(Some(key))
      ensures shutdown ==> r == Err(ShutdownInProgress)
      ensures !shutdown && username !in credentials ==> r == Ok(None)
      ensures r == Ok(None) ==> username in credentials ==>
        && Decode(credentials[username]).Ok? && suite.fromUtf8(password).Some?
        && forall key: Bytes :: !Opens(suite, credentials[username], suite.fromUtf8(password).value, key)
    {
      if shutdown then Err(ShutdownInProgress)
      else
        match StoredEnvelope(username)
        case Err(error) => Err(error)
        case Ok(None) => Ok(None)
        case Ok(Some(e)) =>
          match DecodeText(suite, password)
          case Err(error) => Err(error)
          case Ok(text) => Unlock(suite, e, text)
    }

    /** Only well-formed envelopes of a visible username enter the map. */
    method UpsertPasswordEnvelope(username: string, envelope: Bytes) returns (r: Result<()>)
      modifies this`credentials
      ensures r.Ok? <==> !shutdown && !IsBlank(username) && Decode(envelope).Ok?
      ensures shutdown ==> r == Err(ShutdownInProgress)
      ensures !shutdown && r.Err? ==> r == Err(Validation)
      ensures r.Ok? ==> credentials == old(credentials)[username := envelope]
      ensures r.Err? ==> credentials == old(credentials)
    {
      if shutdown {
        return Err(ShutdownInProgress);
      }
      if IsBlank(username) {
        return Err(Validation);
      }
      var _ :- Decode(envelope);
      credentials := credentials[username := envelope];
      r := Ok(());
    }

    /** A new account starts in the legacy form, and is refused next to an account-key account. */
    method CreateUser(username: string, password: Bytes) returns (r: Result<()>)
      requires suite.Ideal()
      modifies this`credentials
      ensures r.Ok? <==>
        && !shutdown && !IsBlank(username) && username !in old(credentials)
        && !HasAccountKeyUser(old(credentials)) && suite.fromUtf8(password).Some?
      ensures (&& !shutdown && !IsBlank(username) && username !in old(credentials) && suite.fromUtf8(password).Some?
               && forall name :: name in old(credentials) && old(credentials)[name] != [] ==> old(credentials)[name][0] != 2)
        ==> r.Ok?
      ensures r.Err? ==> credentials == old(credentials)
      ensures r.Err? ==>
        r.error == (if shutdown then ShutdownInProgress
                    else if IsBlank(username) then Validation
                    else if username in old(credentials) then Conflict
                    else if HasAccountKeyUser(old(credentials)) then SingleAccountVault
                    else Validation)
      ensures r.Ok? ==>
        && username in credentials
        && credentials == old(credentials)[username := credentials[username]]
        && !StartsAsAccountKey(credentials[username])
        && exists key: Key :: Opens(suite, credentials[username], suite.fromUtf8(password).value, key)
    {
      if shutdown {
        return Err(ShutdownInProgress);
      }
      if IsBlank(username) {
        return Err(Validation);
      }
      if username in credentials {
        return Err(Conflict);
      }
      if HasAccountKeyUser(credentials) {
        return Err(SingleAccountVault);
      }
      var text :- DecodeText(suite, password);
      var e := DeriveLegacy(suite, text);
      credentials := credentials[username := Encode(e)];
      r := Ok(());
    }
  }
}
