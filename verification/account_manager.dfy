/**
 * The account manager `SQLiteAuth` and the form parser
 * `AccountDataFormParser` of the web server: session lookup, login,
 * register, logout and delete against the `user` table, the session cookie,
 * and the validation of submitted forms.
 *
 * Fresh values (`crypto.randomUUID` sessions, `crypto.randomBytes` salts)
 * are parameters of the operations; which repository call the store first
 * fails to serve is a `Fault` parameter.
 */
module AccountManager {
  import opened Common
  import opened Crypto
  import opened UserStore

  /** What the account manager reports about a user (`UserData`). */
  datatype UserData = UserData(username: string, session: string, id: int, salt: string, hash: string)

  /** The credentials of a login or register form (`LoginData`, `RegisterData`). */
  datatype Credentials = Credentials(username: string, password: string)

  const SessionNonexistent := HttpError(BadRequest, "provided-session-nonexistant", "The proved does not exist")
  const NotLoggedIn := HttpError(Unauthorized, "not-logged-in", "Cannot get user, user is not logged in")
  const UnknownUsername := HttpError(BadRequest, "UndefinedUsername", "Username does not exists")
  const IncorrectPassword := HttpError(BadRequest, "IncorrectPassword", "Password is incorrect")
  const UsernameTaken := HttpError(BadRequest, "UsernameAlreadyUsed", "Username used by another user")

  // ---------------------------------------------------------------------
  // The session cookie
  // ---------------------------------------------------------------------

  datatype SameSite = Strict | Lax | NoRestriction

  datatype CookieOptions = CookieOptions(path: string, httpOnly: bool, sameSite: SameSite, secure: bool, maxAge: int)

  datatype Cookie = Cookie(value: string, options: CookieOptions)

  const SessionCookieName := "session"
  const SessionMaxAge := 1200

  /** The cookies of one request and its response, by name (SvelteKit's `Cookies`). */
  class CookieJar {
    var entries: map<string, Cookie>

    constructor (entries: map<string, Cookie>)
      ensures this.entries == entries
    {
      this.entries := entries;
    }
  }

  // ---------------------------------------------------------------------
  // The account manager
  // ---------------------------------------------------------------------

  class SQLiteAuth {
    /** The `user` table of the shared Prisma client. */
    const db: UserTable
    /** The key derivation behind `hash_password`. */
    const pbkdf2: Pbkdf2
    /** Whether the server runs with `NODE_ENV` set to "production". */
    const production: bool

    constructor (db: UserTable, pbkdf2: Pbkdf2, production: bool)
      ensures this.db == db && this.pbkdf2 == pbkdf2 && this.production == production
    {
      this.db := db;
      this.pbkdf2 := pbkdf2;
      this.production := production;
    }

    /**
     * `get_user_by_session`: the user whose row holds `session`, or the
     * "provided-session-nonexistant" error when no row does. The lookup is
     * not wrapped, so a store failure rejects the whole call.
     */
    function GetUserBySession(session: string, fault: Fault): (r: Settled<Result<UserData>>)
      reads this, db
      ensures r.Rejected? <==> !Serves(fault, 0)
      ensures r.Resolved? ==>
                (r.value.Err? <==> forall k :: 0 <= k < |db.rows| ==> db.rows[k].session != Some(session))
      ensures r.Resolved? && r.value.Err? ==> r.value.error == SessionNonexistent
      ensures r.Resolved? && r.value.Ok? ==>
                exists u :: u in db.rows && u.session == Some(session) &&
                            r.value.value == UserData(u.username, session, u.id, u.salt, u.hash)
    {
      match db.FindUnique(BySession(session), Serves(fault, 0))
      case Rejected => Rejected
      case Resolved(None) => Resolved(Err(SessionNonexistent))
      case Resolved(Some(u)) =>
        Resolved(Ok(UserData(u.username, u.session.value, u.id, u.salt, u.hash)))
    }

    /**
     * `get_current_user`: "not-logged-in" (401) when the request carries no
     * session cookie, before the store is consulted; otherwise the lookup of
     * the cookie's session.
     */
    function GetCurrentUser(cookies: CookieJar, fault: Fault): (r: Settled<Result<UserData>>)
      reads this, db, cookies
      ensures SessionCookieName !in cookies.entries ==> r == Resolved(Err(NotLoggedIn))
      ensures SessionCookieName in cookies.entries ==>
                r == GetUserBySession(cookies.entries[SessionCookieName].value, fault)
    {
      if SessionCookieName !in cookies.entries then Resolved(Err(NotLoggedIn))
      else GetUserBySession(cookies.entries[SessionCookieName].value, fault)
    }

    /**
     * `login`: looks the username up, recomputes the hash with the stored
     * salt, and on a match stores the fresh `session` on that user's row.
     * Every failure leaves the table as it was.
     */
    method Login(data: Credentials, session: string, fault: Fault) returns (r: Result<string>)
      requires db.Valid()
      modifies db
      ensures db.Valid() && db.nextId == old(db.nextId)
      ensures var rows := old(db.rows);
              var i := Locate(rows, ByUsername(data.username));
              if !Serves(fault, 0) then
                r == Err(InternalDatabaseError) && db.rows == rows
              else if i < 0 then
                r == Err(UnknownUsername) && db.rows == rows
              else if HashPassword(pbkdf2, data.password, rows[i].salt) != rows[i].hash then
                r == Err(IncorrectPassword) && db.rows == rows
              else if !Serves(fault, 1) || Clashes(rows, i, SetSession(Some(session))) then
                r == Err(InternalDatabaseError) && db.rows == rows
              else
                r == Ok(session) && db.rows == rows[i := rows[i].(session := Some(session))]
    {
      var found := WrapDatabaseResponse(db.FindUnique(ByUsername(data.username), Serves(fault, 0)));
      if found.Err? {
        return Err(found.error);
      }
      if found.value.None? {
        return Err(UnknownUsername);
      }
      var user := found.value.value;
      ghost var i := Locate(db.rows, ByUsername(data.username));
      LocateUnique(db.rows, ById(user.id), i);
      var newHash := HashPassword(pbkdf2, data.password, user.salt);
      if user.hash != newHash {
        return Err(IncorrectPassword);
      }
      var updated := db.Update(ById(user.id), SetSession(Some(session)), Serves(fault, 1));
      var wrapped := WrapDatabaseResponse(updated);
      if wrapped.Err? {
        return Err(wrapped.error);
      }
      return Ok(session);
    }

    /**
     * `register`: refuses a taken username; otherwise stores a row with the
     * fresh `salt`, the hash of the password under it and the fresh
     * `session`, and returns that session.
     */
    method Register(data: Credentials, salt: string, session: string, fault: Fault) returns (r: Result<string>)
      requires db.Valid()
      modifies db
      ensures db.Valid()
      ensures var rows := old(db.rows);
              if !Serves(fault, 0) then
                r == Err(InternalDatabaseError) && db.rows == rows && db.nextId == old(db.nextId)
              else if 0 <= Locate(rows, ByUsername(data.username)) then
                r == Err(UsernameTaken) && db.rows == rows && db.nextId == old(db.nextId)
              else if !Serves(fault, 1) || 0 <= Locate(rows, BySession(session)) then
                r == Err(InternalDatabaseError) && db.rows == rows && db.nextId == old(db.nextId)
              else
                r == Ok(session) && db.nextId == old(db.nextId) + 1 &&
                db.rows == rows + [User(old(db.nextId), data.username, salt,
                                        HashPassword(pbkdf2, data.password, salt), Some(session))]
    {
      var found := WrapDatabaseResponse(db.FindUnique(ByUsername(data.username), Serves(fault, 0)));
      if found.Err? {
        return Err(found.error);
      }
      if found.value.Some? {
        return Err(UsernameTaken);
      }
      var hash := HashPassword(pbkdf2, data.password, salt);
      var created := db.Create(data.username, salt, hash, session, Serves(fault, 1));
      var wrapped := WrapDatabaseResponse(created);
      if wrapped.Err? {
        return Err(wrapped.error);
      }
      return Ok(session);
    }

    /**
     * `logout` as written: an update of the row holding `session` with
     * `data: {session: undefined}`. Whether the client library reads
     * `undefined` as "write null" or as "leave the column alone" is the
     * parameter `undefinedClears`. A session no row holds makes the update
     * reject, which surfaces as the classified 500 error.
     */
    method LogoutAsWritten(session: string, undefinedClears: bool, fault: Fault) returns (r: Result<()>)
      requires db.Valid()
      modifies db
      ensures db.Valid() && db.nextId == old(db.nextId)
      ensures var rows := old(db.rows);
              var i := Locate(rows, BySession(session));
              if !Serves(fault, 0) || i < 0 then
                r == Err(InternalDatabaseError) && db.rows == rows
              else if undefinedClears then
                r == Ok(()) && db.rows == rows[i := rows[i].(session := None)]
              else
                r == Ok(()) && db.rows == rows
    {
      var data := if undefinedClears then SetSession(None) else KeepSession;
      var updated := db.Update(BySession(session), data, Serves(fault, 0));
      var wrapped := WrapDatabaseResponse(updated);
      if wrapped.Err? {
        return Err(wrapped.error);
      }
      return Ok(());
    }

    /**
     * `logout` with the session written as `null`: the row holding
     * `session` loses it.
     */
    method Logout(session: string, fault: Fault) returns (r: Result<()>)
      requires db.Valid()
      modifies db
      ensures db.Valid() && db.nextId == old(db.nextId)
      ensures var rows := old(db.rows);
              var i := Locate(rows, BySession(session));
              if !Serves(fault, 0) || i < 0 then
                r == Err(InternalDatabaseError) && db.rows == rows
              else
                r == Ok(()) && db.rows == rows[i := rows[i].(session := None)]
    {
      var updated := db.Update(BySession(session), SetSession(None), Serves(fault, 0));
      var wrapped := WrapDatabaseResponse(updated);
      if wrapped.Err? {
        return Err(wrapped.error);
      }
      return Ok(());
    }

    /** `delete`: removes the row with the given id. */
    method Delete(id: int, fault: Fault) returns (r: Result<()>)
      requires db.Valid()
      modifies db
      ensures db.Valid() && db.nextId == old(db.nextId)
      ensures var rows := old(db.rows);
              var i := Locate(rows, ById(id));
              if !Serves(fault, 0) || i < 0 then
                r == Err(InternalDatabaseError) && db.rows == rows
              else
                r == Ok(()) && db.rows == rows[..i] + rows[i + 1..]
    {
      var deleted := db.Delete(ById(id), Serves(fault, 0));
      var wrapped := WrapDatabaseResponse(deleted);
      if wrapped.Err? {
        return Err(wrapped.error);
      }
      return Ok(());
    }

    /** The attributes `set_session_cookie` gives the session cookie. */
    function SessionCookieOptions(): (o: CookieOptions)
      reads this
      ensures o.path == "/" && o.httpOnly && o.sameSite == Strict && o.maxAge == SessionMaxAge
      ensures o.secure <==> production
    {
      CookieOptions("/", true, Strict, production, SessionMaxAge)
    }

    /** `set_session_cookie`: writes `session` into the session cookie; other cookies stay. */
    method SetSessionCookie(session: string, cookies: CookieJar)
      modifies cookies
      ensures cookies.entries == old(cookies.entries)[SessionCookieName := Cookie(session, SessionCookieOptions())]
    {
      cookies.entries := cookies.entries[SessionCookieName := Cookie(session, SessionCookieOptions())];
    }

    /** `reset_session_cookie`: removes the session cookie; other cookies stay. */
    method ResetSessionCookie(cookies: CookieJar)
      modifies cookies
      ensures cookies.entries == old(cookies.entries) - {SessionCookieName}
    {
      cookies.entries := cookies.entries - {SessionCookieName};
    }
  }

  // ---------------------------------------------------------------------
  // The form parser
  // ---------------------------------------------------------------------

  const UndefinedUsernameField := HttpError(BadRequest, "UndefinedUsername", "Username is not defined")
  const UndefinedPasswordField := HttpError(BadRequest, "UndefinedPassword", "Password is not defined")
  const MissingUsernameField := HttpError(BadRequest, "MissingUsername", "Username is missing")
  const MissingPasswordField := HttpError(BadRequest, "MissingPassword", "Password is missing")

  /** The form a client submits for `c`. */
  function FormOf(c: Credentials): Form
  {
    map["username" := c.username, "password" := c.password]
  }

  /**
   * `parse_for_login`: a missing username is reported before a missing
   * password; an empty field is accepted.
   */
  function ParseForLogin(form: Form): (r: Result<Credentials>)
    ensures r.Ok? <==> "username" in form && "password" in form
    ensures r.Ok? ==> r.value.username == form["username"] && r.value.password == form["password"]
    ensures "username" !in form ==> r == Err(UndefinedUsernameField)
    ensures "username" in form && "password" !in form ==> r == Err(UndefinedPasswordField)
  {
    if "username" !in form then Err(UndefinedUsernameField)
    else if "password" !in form then Err(UndefinedPasswordField)
    else Ok(Credentials(form["username"], form["password"]))
  }

  /** `parse_for_register`: as the login parser, with the "Missing…" errors. */
  function ParseForRegister(form: Form): (r: Result<Credentials>)
    ensures r.Ok? <==> "username" in form && "password" in form
    ensures r.Ok? ==> r.value.username == form["username"] && r.value.password == form["password"]
    ensures "username" !in form ==> r == Err(MissingUsernameField)
    ensures "username" in form && "password" !in form ==> r == Err(MissingPasswordField)
  {
    if "username" !in form then Err(MissingUsernameField)
    else if "password" !in form then Err(MissingPasswordField)
    else Ok(Credentials(form["username"], form["password"]))
  }

  /** Both parsers give back exactly the credentials a form was made from, empty ones included. */
  lemma ParsersRecoverCredentials(c: Credentials)
    ensures ParseForLogin(FormOf(c)) == Ok(c)
    ensures ParseForRegister(FormOf(c)) == Ok(c)
  {
  }
  // ---------------------------------------------------------------------
  // Sessions across operations
  // ---------------------------------------------------------------------

  /**
   * Register, then a login with another password, then one with the same
   * password: the second login fails the hash check, the third passes it
   * and stores its own fresh session.
   */
  method RegisterThenLogin(auth: SQLiteAuth, c: Credentials, wrong: string, salt: string, s1: string, s2: string)
    returns (registered: Result<string>, refused: Result<string>, admitted: Result<string>)
    requires auth.db.Valid()
    requires Locate(auth.db.rows, ByUsername(c.username)) < 0
    requires Locate(auth.db.rows, BySession(s1)) < 0 && Locate(auth.db.rows, BySession(s2)) < 0
    requires HashPassword(auth.pbkdf2, wrong, salt) != HashPassword(auth.pbkdf2, c.password, salt)
    modifies auth.db
    ensures registered == Ok(s1) && refused == Err(IncorrectPassword) && admitted == Ok(s2)
    ensures auth.db.rows == old(auth.db.rows) +
              [User(old(auth.db.nextId), c.username, salt, HashPassword(auth.pbkdf2, c.password, salt), Some(s2))]
  {
    ghost var rows := auth.db.rows;
    registered := auth.Register(c, salt, s1, Healthy);
    ghost var user := User(old(auth.db.nextId), c.username, salt, HashPassword(auth.pbkdf2, c.password, salt), Some(s1));
    assert auth.db.rows == rows + [user];
    LocateUnique(auth.db.rows, ByUsername(c.username), |rows|);
    refused := auth.Login(Credentials(c.username, wrong), s2, Healthy);
    admitted := auth.Login(c, s2, Healthy);
    assert Locate(rows + [user], BySession(s2)) in {-1, |rows|};
  }

  /** After `Logout`, the session no longer identifies anyone. */
  method LogoutEndsSession(auth: SQLiteAuth, session: string) returns (r: Result<()>)
    requires auth.db.Valid()
    requires 0 <= Locate(auth.db.rows, BySession(session))
    modifies auth.db
    ensures r == Ok(())
    ensures auth.GetUserBySession(session, Healthy) == Resolved(Err(SessionNonexistent))
  {
    r := auth.Logout(session, Healthy);
    assert forall k :: 0 <= k < |auth.db.rows| ==> auth.db.rows[k].session != Some(session);
  }

  /**
   * When the client library reads `session: undefined` as "leave the
   * column alone", `logout` as written succeeds and yet the session still
   * identifies its user.
   */
  method LogoutAsWrittenKeepsSession(auth: SQLiteAuth, session: string) returns (r: Result<()>)
    requires auth.db.Valid()
    requires 0 <= Locate(auth.db.rows, BySession(session))
    modifies auth.db
    ensures r == Ok(())
    ensures auth.GetUserBySession(session, Healthy).value.Ok?
  {
    r := auth.LogoutAsWritten(session, false, Healthy);
  }
}
