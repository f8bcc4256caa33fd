/**
 * The older account manager `UserManager` of the web server: form parsing
 * that also refuses empty fields, the `user_exists` lookup, `authenticate`
 * (its login flow), and the `register` and `logout` stubs.
 */
module UserManager {
  import opened Common
  import opened Crypto
  import opened UserStore

  /** The credentials of a form (`AuthData`, `RegisterData`). */
  datatype AuthData = AuthData(username: string, password: string)

  /** `UserExistsResult`: the row found for a username, or none. */
  datatype UserExistsResult = Exists(user: User) | Absent

  const MissingUsername := HttpError(BadRequest, "MissingUsername", "Username not provided")
  const MissingPassword := HttpError(BadRequest, "MissingPassword", "Password not provided")
  const DatabaseError := HttpError(InternalServerError, "DatabaseError", "Internal database error")
  const UserDoesNotExist := HttpError(BadRequest, "UserDoesNotExist", "A user with that username does not exist")
  const IncorrectPassword := HttpError(BadRequest, "IncorrectPassword", "Password provided is incorrect")
  const RegisterNotImplemented := HttpError(-1, "NotImplemented", "Register not implemented yet")
  const LogoutNotImplemented := HttpError(-1, "NotImplemented", "Logout not implemented yet")

  /** A field JavaScript reads as truthy: present and not the empty string. */
  predicate Provided(form: Form, field: string)
  {
    field in form && form[field] != ""
  }

  /**
   * `parse_form_data_as_login_data`: a missing or empty username is
   * reported before a missing or empty password.
   */
  function ParseLoginForm(form: Form): (r: Result<AuthData>)
    ensures r.Ok? <==> Provided(form, "username") && Provided(form, "password")
    ensures r.Ok? ==> r.value.username == form["username"] && r.value.password == form["password"]
    ensures !Provided(form, "username") ==> r == Err(MissingUsername)
    ensures Provided(form, "username") && !Provided(form, "password") ==> r == Err(MissingPassword)
  {
    if !Provided(form, "username") then Err(MissingUsername)
    else if !Provided(form, "password") then Err(MissingPassword)
    else Ok(AuthData(form["username"], form["password"]))
  }

  /** `parse_form_data_as_register_data`: the same checks and errors as the login parser. */
  function ParseRegisterForm(form: Form): (r: Result<AuthData>)
    ensures r.Ok? <==> Provided(form, "username") && Provided(form, "password")
    ensures r.Ok? ==> r.value.username == form["username"] && r.value.password == form["password"]
    ensures !Provided(form, "username") ==> r == Err(MissingUsername)
    ensures Provided(form, "username") && !Provided(form, "password") ==> r == Err(MissingPassword)
  {
    if !Provided(form, "username") then Err(MissingUsername)
    else if !Provided(form, "password") then Err(MissingPassword)
    else Ok(AuthData(form["username"], form["password"]))
  }

  /** The two parsers agree on every form. */
  lemma ParsersAgree(form: Form)
    ensures ParseLoginForm(form) == ParseRegisterForm(form)
  {
  }

  /** `register`: always the "NotImplemented" error with code -1. */
  function Register(data: AuthData): (r: Result<string>)
    ensures r.Err? && r.error.code == -1 && r.error.name == "NotImplemented"
  {
    Err(RegisterNotImplemented)
  }

  /** `logout`: always the "NotImplemented" error with code -1. */
  function Logout(data: AuthData): (r: Result<string>)
    ensures r.Err? && r.error.code == -1 && r.error.name == "NotImplemented"
  {
    Err(LogoutNotImplemented)
  }

  class UserManager {
    /** The `user` table of the shared Prisma client. */
    const db: UserTable
    /** The key derivation `authenticate` hashes with. */
    const pbkdf2: Pbkdf2

    constructor (db: UserTable, pbkdf2: Pbkdf2)
      ensures this.db == db && this.pbkdf2 == pbkdf2
    {
      this.db := db;
      this.pbkdf2 := pbkdf2;
    }

    /**
     * `user_exists`: the row with that username when there is one; a store
     * failure is caught and becomes "DatabaseError" (500).
     */
    function UserExists(username: string, serves: bool): (r: Result<UserExistsResult>)
      reads db
      ensures !serves <==> r == Err(DatabaseError)
      ensures r.Ok? && r.value.Exists? ==> r.value.user in db.rows && r.value.user.username == username
      ensures r.Ok? ==> (r.value.Absent? <==> forall k :: 0 <= k < |db.rows| ==> db.rows[k].username != username)
    {
      match db.FindUnique(ByUsername(username), serves)
      case Rejected => Err(DatabaseError)
      case Resolved(None) => Ok(Absent)
      case Resolved(Some(u)) => Ok(Exists(u))
    }

    /**
     * `authenticate`: the login flow. A known user whose stored hash matches
     * the recomputed one gets the fresh `session` written onto its row. The
     * update is not wrapped: when the store fails it, or the session is
     * already another row's, the whole call rejects.
     */
    method Authenticate(data: AuthData, session: string, fault: Fault) returns (r: Settled<Result<string>>)
      requires db.Valid()
      modifies db
      ensures db.Valid() && db.nextId == old(db.nextId)
      ensures var rows := old(db.rows);
              var i := Locate(rows, ByUsername(data.username));
              if !Serves(fault, 0) then
                r == Resolved(Err(DatabaseError)) && db.rows == rows
              else if i < 0 then
                r == Resolved(Err(UserDoesNotExist)) && db.rows == rows
              else if HashPassword(pbkdf2, data.password, rows[i].salt) != rows[i].hash then
                r == Resolved(Err(IncorrectPassword)) && db.rows == rows
              else if !Serves(fault, 1) || Clashes(rows, i, SetSession(Some(session))) then
                r == Rejected && db.rows == rows
              else
                r == Resolved(Ok(session)) && db.rows == rows[i := rows[i].(session := Some(session))]
    {
      var found := UserExists(data.username, Serves(fault, 0));
      if found.Err? {
        return Resolved(Err(found.error));
      }
      if found.value.Absent? {
        return Resolved(Err(UserDoesNotExist));
      }
      var user := found.value.user;
      ghost var i := Locate(db.rows, ByUsername(data.username));
      LocateUnique(db.rows, ByUsername(data.username), i);
      LocateUnique(db.rows, ById(user.id), i);
      var newHash := HashPassword(pbkdf2, data.password, user.salt);
      if newHash != user.hash {
        return Resolved(Err(IncorrectPassword));
      }
      var update := db.Update(ById(user.id), SetSession(Some(session)), Serves(fault, 1));
      if update.Rejected? {
        return Rejected;
      }
      return Resolved(Ok(session));
    }
  }
}
