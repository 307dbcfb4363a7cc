/**
 * The back end's rows and errors, and the database holding the `users`
 * table (keyed by username) and the `sessions` table (keyed by session id,
 * each row naming a user).
 */
module Tables {
  import opened Wrappers

  /** A row of `users`. The password is the stored bcrypt hash. */
  datatype User = User(username: string, password: string, avatar: Option<seq<bv8>>)

  /** A row of `sessions`. */
  datatype Session = Session(sessionId: string, username: string)

  /** A change to a user row: a field given as `None` is left alone. */
  datatype UpdateUser = UpdateUser(username: Option<string>, password: Option<string>, avatar: Option<seq<bv8>>)

  /**
   * How a statement can fail: a duplicate primary key, a `sessions` row
   * naming a user that `users` does not hold, no row for `first()`, or
   * nothing to `SET`.
   */
  datatype DbFailure = UniqueViolation | ForeignKeyViolation | NotFound | EmptyChangeset

  datatype AppError =
    | LoginError
    | SignUpError(message: string)
    | InternalError(message: string)
    | NotFoundError
    | CryptoError(message: string)
    | DatabaseError(failure: DbFailure)

  type UsersTable = map<string, User>

  /** Session id to the username the session belongs to. */
  type SessionsTable = map<string, string>

  /** Each user row is stored under its own username, the primary key. */
  predicate KeyedByUsername(users: UsersTable)
  {
    forall name :: name in users ==> users[name].username == name
  }

  /** No user holds two sessions. */
  predicate OneSessionPerUser(sessions: SessionsTable)
  {
    forall a, b :: a in sessions && b in sessions && sessions[a] == sessions[b] ==> a == b
  }

  /** `sessions.username` references `users.username`: every session's user exists. */
  predicate SessionsOwned(users: UsersTable, sessions: SessionsTable)
  {
    forall id :: id in sessions ==> sessions[id] in users
  }

  /** `users.find(name).first().optional()`. */
  function LookupUser(users: UsersTable, name: string): (r: Option<User>)
    ensures r.Some? <==> name in users
    ensures r.Some? ==> r.value == users[name]
  {
    if name in users then Some(users[name]) else None
  }

  /** A row found under a username carries that username. */
  lemma LookupUserKeyed(users: UsersTable, name: string)
    requires KeyedByUsername(users)
    ensures LookupUser(users, name).Some? ==> LookupUser(users, name).value.username == name
  {
  }

  class Database {
    var users: UsersTable
    var sessions: SessionsTable

    predicate Valid()
      reads this
    {
      KeyedByUsername(users) && OneSessionPerUser(sessions) && SessionsOwned(users, sessions)
    }

    constructor()
      ensures Valid() && users == map[] && sessions == map[]
    {
      users := map[];
      sessions := map[];
    }
  }
}
