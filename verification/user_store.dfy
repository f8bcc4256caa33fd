/**
 * The `user` table the account managers work against, as the Prisma client
 * exposes it: rows with a unique id, a unique username and a nullable unique
 * session, looked up, updated, created and deleted by a unique key. A call
 * either resolves or rejects; `wrap_database_response` turns a rejection
 * into the classified "internal-database-error".
 */
module UserStore {
  import opened Common

  /** A row of the `user` table. */
  datatype User = User(id: int, username: string, salt: string, hash: string, session: Option<string>)

  /** A unique key to look a row up by (Prisma's `where`). */
  datatype Key = ById(id: int) | ByUsername(username: string) | BySession(session: string)

  predicate Matches(u: User, key: Key)
  {
    match key
    case ById(id) => u.id == id
    case ByUsername(name) => u.username == name
    case BySession(s) => u.session == Some(s)
  }

  /** The index of the first row that matches `key`, or -1 when none does. */
  function Locate(rows: seq<User>, key: Key): (r: int)
    ensures -1 <= r < |rows|
    ensures 0 <= r ==> Matches(rows[r], key) && forall k :: 0 <= k < r ==> !Matches(rows[k], key)
    ensures r < 0 <==> forall k :: 0 <= k < |rows| ==> !Matches(rows[k], key)
  {
    if rows == [] then -1
    else if Matches(rows[0], key) then 0
    else
      var r := Locate(rows[1..], key);
      if r < 0 then -1 else r + 1
  }

  /** No two rows share an id, a username or a (non-null) session. */
  ghost predicate UniqueKeys(rows: seq<User>)
  {
    forall i, j :: 0 <= i < |rows| && 0 <= j < |rows| && i != j ==>
      rows[i].id != rows[j].id && rows[i].username != rows[j].username &&
      (rows[i].session.Some? ==> rows[i].session != rows[j].session)
  }

  /** With unique keys, the row a key matches is the one `Locate` finds. */
  lemma LocateUnique(rows: seq<User>, key: Key, i: int)
    requires UniqueKeys(rows) && 0 <= i < |rows| && Matches(rows[i], key)
    ensures Locate(rows, key) == i
  {
  }

  /** Every id is below `bound`. */
  ghost predicate IdsBelow(rows: seq<User>, bound: int)
  {
    forall k :: 0 <= k < |rows| ==> rows[k].id < bound
  }

  /** Removing a row keeps the keys unique and every id below `bound`. */
  lemma RemovePreservesKeys(rows: seq<User>, i: int, bound: int)
    requires UniqueKeys(rows) && 0 <= i < |rows| && IdsBelow(rows, bound)
    ensures UniqueKeys(rows[..i] + rows[i + 1..]) && IdsBelow(rows[..i] + rows[i + 1..], bound)
  {
    var t := rows[..i] + rows[i + 1..];
    forall a | 0 <= a < |t|
      ensures t[a] == rows[if a < i then a else a + 1]
    {
    }
  }

  /** What an update writes into the session column. */
  datatype SessionData =
    | SetSession(session: Option<string>)  // `data: {session}` with a value or `null`
    | KeepSession                          // `data: {}`: nothing to write

  function Updated(u: User, data: SessionData): User
  {
    if data.SetSession? then u.(session := data.session) else u
  }

  /** Writing `data` onto row `i` would give its session to a second row. */
  predicate Clashes(rows: seq<User>, i: int, data: SessionData)
  {
    data.SetSession? && data.session.Some? &&
    var holder := Locate(rows, BySession(data.session.value));
    0 <= holder && holder != i
  }

  /**
   * Which call of an operation is the first the store cannot serve: none,
   * or the call numbered `from` (counting from 0) and every later one.
   */
  datatype Fault = Healthy | FailsFrom(from: nat)

  predicate Serves(fault: Fault, call: nat)
  {
    fault.Healthy? || call < fault.from
  }

  /** The error every rejected repository call is turned into. */
  const InternalDatabaseError := HttpError(InternalServerError, "internal-database-error",
                                           "An internal error ocurred with error code 0x01")

  /** `wrap_database_response`: a resolved value is `Ok`, a rejection the classified 500 error. */
  function WrapDatabaseResponse<T>(s: Settled<T>): (r: Result<T>)
    ensures r.Ok? <==> s.Resolved?
    ensures r.Ok? ==> r.value == s.value
    ensures r.Err? ==> r.error.code == 500 && r.error.name == "internal-database-error"
  {
    match s
    case Resolved(v) => Ok(v)
    case Rejected => Err(InternalDatabaseError)
  }

  /** The `user` table; `nextId` is the next autoincremented id. */
  class UserTable {
    var rows: seq<User>
    var nextId: int

    ghost predicate Valid()
      reads this
    {
      UniqueKeys(rows) && IdsBelow(rows, nextId)
    }

    constructor ()
      ensures Valid() && rows == [] && nextId == 1
    {
      rows := [];
      nextId := 1;
    }

    /** `findUnique({where: key})`: the matching row, or `null`. */
    function FindUnique(key: Key, serves: bool): (r: Settled<Option<User>>)
      reads this
      ensures r.Rejected? <==> !serves
      ensures r.Resolved? && r.value.Some? ==> r.value.value in rows && Matches(r.value.value, key)
      ensures r.Resolved? ==> (r.value.None? <==> forall k :: 0 <= k < |rows| ==> !Matches(rows[k], key))
    {
      if !serves then Rejected
      else
        var i := Locate(rows, key);
        if i < 0 then Resolved(None) else Resolved(Some(rows[i]))
    }

    /**
     * `update({where: key, data})`: rejects when no row matches or the new
     * session belongs to another row; otherwise rewrites the session of the
     * matching row alone and resolves to the updated row.
     */
    method Update(key: Key, data: SessionData, serves: bool) returns (r: Settled<User>)
      requires Valid()
      modifies this
      ensures Valid() && nextId == old(nextId)
      ensures var i := Locate(old(rows), key);
              if !serves || i < 0 || Clashes(old(rows), i, data) then
                r.Rejected? && rows == old(rows)
              else
                r == Resolved(Updated(old(rows)[i], data)) && rows == old(rows)[i := r.value]
    {
      if !serves {
        return Rejected;
      }
      var i := Locate(rows, key);
      if i < 0 || Clashes(rows, i, data) {
        return Rejected;
      }
      var user := Updated(rows[i], data);
      if data.SetSession? && data.session.Some? {
        var holder := Locate(rows, BySession(data.session.value));
        forall j | 0 <= j < |rows| && j != i
          ensures rows[j].session != data.session
        {
          if rows[j].session == data.session {
            LocateUnique(rows, BySession(data.session.value), j);
          }
        }
      }
      rows := rows[i := user];
      return Resolved(user);
    }

    /**
     * `create({data})`: rejects when the username or the session is taken;
     * otherwise appends a row with the next id and resolves to it.
     */
    method Create(username: string, salt: string, hash: string, session: string, serves: bool)
      returns (r: Settled<User>)
      requires Valid()
      modifies this
      ensures Valid()
      ensures if !serves || 0 <= Locate(old(rows), ByUsername(username))
                 || 0 <= Locate(old(rows), BySession(session)) then
                r.Rejected? && rows == old(rows) && nextId == old(nextId)
              else
                r == Resolved(User(old(nextId), username, salt, hash, Some(session))) &&
                rows == old(rows) + [r.value] && nextId == old(nextId) + 1
    {
      if !serves || 0 <= Locate(rows, ByUsername(username)) || 0 <= Locate(rows, BySession(session)) {
        return Rejected;
      }
      var user := User(nextId, username, salt, hash, Some(session));
      rows := rows + [user];
      nextId := nextId + 1;
      return Resolved(user);
    }

    /** `delete({where: key})`: rejects when no row matches; otherwise removes that row. */
    method Delete(key: Key, serves: bool) returns (r: Settled<User>)
      requires Valid()
      modifies this
      ensures Valid() && nextId == old(nextId)
      ensures var i := Locate(old(rows), key);
              if !serves || i < 0 then
                r.Rejected? && rows == old(rows)
              else
                r == Resolved(old(rows)[i]) && rows == old(rows)[..i] + old(rows)[i + 1..]
    {
      if !serves {
        return Rejected;
      }
      var i := Locate(rows, key);
      if i < 0 {
        return Rejected;
      }
      var user := rows[i];
      RemoveRow(i);
      return Resolved(user);
    }

    /** Removes row `i`; the others keep their order. */
    method RemoveRow(i: int)
      requires Valid() && 0 <= i < |rows|
      modifies this
      ensures Valid() && nextId == old(nextId)
      ensures rows == old(rows)[..i] + old(rows)[i + 1..]
    {
      RemovePreservesKeys(rows, i, nextId);
      rows := rows[..i] + rows[i + 1..];
    }
  }
}
