/**
 * The account service: logging in (checking the password and starting a
 * session), logging out, finding a session's user and signing up. bcrypt
 * is given as the functions `verify` and `hash`, and the new session's
 * UUID as `freshId`.
 */
module UserService {
  import opened Wrappers
  import opened Tables
  import UserRepository
  import SessionRepository

  /** `bcrypt::verify(password, stored)`: whether they match, or why it could not tell. */
  type Verify = (string, string) -> Result<bool, string>

  /** `bcrypt::hash(password, DEFAULT_COST)`. */
  type Hash = string -> Result<string, string>

  /**
   * `login`: an unknown user or a wrong password is a login error, a
   * password that cannot be checked an internal error; a right password
   * starts a session under `freshId` and returns it.
   */
  function LoginSpec(users: UsersTable, sessions: SessionsTable, username: string, password: string,
                     verify: Verify, freshId: string): (out: (SessionsTable, Result<string, AppError>))
    ensures out.1.Ok? ==> out.1.value == freshId
    ensures out.1.Ok? <==> username in users && verify(password, users[username].password) == Ok(true)
                           && !(freshId in sessions && sessions[freshId] != username)
  {
    match LookupUser(users, username)
    case None => (sessions, Err(LoginError))
    case Some(user) =>
      match verify(password, user.password)
      case Err(_) => (sessions, Err(InternalError("Invalid password")))
      case Ok(matches) =>
        if !matches then (sessions, Err(LoginError))
        else
          var (after, r) := SessionRepository.AddSessionSpec(users, sessions, Session(freshId, username));
          if r.Err? then (after, Err(r.error)) else (after, Ok(freshId))
  }

  /** An unknown username is a login error and starts no session. */
  lemma LoginUnknownUser(users: UsersTable, sessions: SessionsTable, username: string, password: string,
                         verify: Verify, freshId: string)
    requires username !in users
    ensures LoginSpec(users, sessions, username, password, verify, freshId) == (sessions, Err(LoginError))
  {
  }

  /** A password bcrypt rejects is a login error; one it cannot check is an internal error; neither starts a session. */
  lemma LoginBadPassword(users: UsersTable, sessions: SessionsTable, username: string, password: string,
                         verify: Verify, freshId: string)
    requires username in users && verify(password, users[username].password) != Ok(true)
    ensures var out := LoginSpec(users, sessions, username, password, verify, freshId);
            && out.0 == sessions
            && (verify(password, users[username].password) == Ok(false) ==> out.1 == Err(LoginError))
            && (verify(password, users[username].password).Err? ==> out.1 == Err(InternalError("Invalid password")))
  {
  }

  /**
   * After a successful login the returned id is the user's one and only
   * session, and every other user's sessions are as they were.
   */
  lemma LoginStartsOnlySession(users: UsersTable, sessions: SessionsTable, username: string, password: string,
                               verify: Verify, freshId: string)
    requires LoginSpec(users, sessions, username, password, verify, freshId).1.Ok?
    ensures var after := LoginSpec(users, sessions, username, password, verify, freshId).0;
            && freshId in after && after[freshId] == username
            && (forall id :: id in after && after[id] == username ==> id == freshId)
            && (forall id :: id in sessions && sessions[id] != username ==> id in after && after[id] == sessions[id])
  {
    SessionRepository.AddSessionKeepsOthers(users, sessions, Session(freshId, username));
  }

  /** Login, whatever its outcome, never gives a user a second session. */
  lemma LoginKeepsOneSessionPerUser(users: UsersTable, sessions: SessionsTable, username: string, password: string,
                                    verify: Verify, freshId: string)
    requires OneSessionPerUser(sessions)
    ensures OneSessionPerUser(LoginSpec(users, sessions, username, password, verify, freshId).0)
  {
    SessionRepository.AddSessionOneSessionPerUser(users, sessions, Session(freshId, username));
  }

  /** `create_user`: hash the password, then create the user with the hash and no avatar. */
  function CreateUserSpec(users: UsersTable, username: string, password: string, hash: Hash): (r: Result<UsersTable, AppError>)
    ensures hash(password).Err? ==> r == Err(CryptoError(hash(password).error))
    ensures hash(password).Ok?
            ==> r == UserRepository.CreateNewUserSpec(users, User(username, hash(password).value, None))
  {
    match hash(password)
    case Err(e) => Err(CryptoError(e))
    case Ok(hashed) => UserRepository.CreateNewUserSpec(users, User(username, hashed, None))
  }

  /** A user signed up is stored with the hash of the password, never the password as typed unless bcrypt returned it, and without an avatar. */
  lemma CreatedUserStoresHash(users: UsersTable, username: string, password: string, hash: Hash)
    requires CreateUserSpec(users, username, password, hash).Ok?
    ensures var after := CreateUserSpec(users, username, password, hash).value;
            && hash(password).Ok?
            && LookupUser(after, username) == Some(User(username, hash(password).value, None))
  {
    UserRepository.CreatedUserIsFound(users, User(username, hash(password).value, None), username);
  }

  class Service {
    const userRepository: UserRepository.Repository
    const sessionRepository: SessionRepository.Repository

    /** Both repositories work on the same database. */
    predicate Valid()
      reads this, userRepository, sessionRepository, userRepository.db
    {
      userRepository.db == sessionRepository.db && userRepository.db.Valid()
    }

    constructor(userRepository: UserRepository.Repository, sessionRepository: SessionRepository.Repository)
      ensures this.userRepository == userRepository && this.sessionRepository == sessionRepository
    {
      this.userRepository := userRepository;
      this.sessionRepository := sessionRepository;
    }

    method Login(username: string, password: string, verify: Verify, freshId: string) returns (r: Result<string, AppError>)
      requires Valid()
      modifies userRepository.db`sessions
      ensures Valid()
      ensures userRepository.db.users == old(userRepository.db.users)
      ensures (userRepository.db.sessions, r)
              == LoginSpec(old(userRepository.db.users), old(userRepository.db.sessions), username, password, verify, freshId)
    {
      var lookup := userRepository.GetUserByUsername(username);
      var user := lookup.value;
      if user.None? {
        return Err(LoginError);
      }
      var matches := verify(password, user.value.password);
      if matches.Err? {
        return Err(InternalError("Invalid password"));
      }
      if !matches.value {
        return Err(LoginError);
      }
      var added := sessionRepository.AddSession(Session(freshId, username));
      if added.Err? {
        return Err(added.error);
      }
      r := Ok(freshId);
    }

    method Logout(id: string) returns (r: Result<(), AppError>)
      requires Valid()
      modifies userRepository.db`sessions
      ensures Valid()
      ensures r == Ok(()) && userRepository.db.sessions == SessionRepository.DeleteSessionSpec(old(userRepository.db.sessions), id)
    {
      var deleted := sessionRepository.DeleteSession(id);
      r := Ok(());
    }

    method GetUserBySession(id: string) returns (r: Result<Option<User>, AppError>)
      requires Valid()
      ensures r == SessionRepository.UserBySessionSpec(userRepository.db.users, userRepository.db.sessions, id)
    {
      r := sessionRepository.GetUserBySession(id);
    }

    method CreateUser(username: string, password: string, hash: Hash) returns (r: Result<(), AppError>)
      requires Valid()
      modifies userRepository.db`users
      ensures Valid()
      ensures userRepository.db.sessions == old(userRepository.db.sessions)
      ensures CreateUserSpec(old(userRepository.db.users), username, password, hash).Ok?
              ==> r == Ok(()) && userRepository.db.users == CreateUserSpec(old(userRepository.db.users), username, password, hash).value
      ensures CreateUserSpec(old(userRepository.db.users), username, password, hash).Err?
              ==> r == Err(CreateUserSpec(old(userRepository.db.users), username, password, hash).error)
                  && userRepository.db.users == old(userRepository.db.users)
    {
      var hashed := hash(password);
      if hashed.Err? {
        return Err(CryptoError(hashed.error));
      }
      r := userRepository.CreateNewUser(User(username, hashed.value, None));
    }
  }
}
