/**
 * Queries on the `users` table: the username rule, creating a user,
 * looking one up and updating one.
 */
module UserRepository {
  import opened Wrappers
  import opened Tables

  /** An ASCII letter, an ASCII digit or '_'. */
  predicate UsernameChar(c: char)
  {
    'a' <= c <= 'z' || 'A' <= c <= 'Z' || '0' <= c <= '9' || c == '_'
  }

  /** `chars().all(...)`: every character is allowed. */
  function AllUsernameChars(s: string): (r: bool)
    ensures r <==> forall i :: 0 <= i < |s| ==> UsernameChar(s[i])
  {
    if |s| == 0 then true
    else
      var rest := AllUsernameChars(s[1..]);
      assert forall i :: 1 <= i < |s| ==> s[1..][i - 1] == s[i];
      UsernameChar(s[0]) && rest
  }

  /** A username is correct when it is not empty and made of ASCII letters, digits and '_' only. */
  function IsCorrectUsername(name: string): (ok: bool)
    ensures ok <==> |name| > 0 && forall i :: 0 <= i < |name| ==> UsernameChar(name[i])
    ensures ok ==> forall i :: 0 <= i < |name| ==> name[i] < 128 as char
  {
    |name| > 0 && AllUsernameChars(name)
  }

  /** Letters outside ASCII, spaces and other punctuation are refused. */
  lemma UsernameExamples()
    ensures !IsCorrectUsername("")
    ensures IsCorrectUsername("alice_01")
    ensures !IsCorrectUsername("a b")
    ensures !IsCorrectUsername("\U{E9}mile")
    ensures !IsCorrectUsername("bob-smith")
  {
    assert !UsernameChar("a b"[1]);
    assert !UsernameChar("\U{E9}mile"[0]);
    assert !UsernameChar("bob-smith"[3]);
  }

  /** `insert_into(users)`: the username is the primary key, so an existing one is refused. */
  function InsertUser(users: UsersTable, user: User): (r: Result<UsersTable, AppError>)
    ensures r.Err? <==> user.username in users
    ensures r.Err? ==> r.error == DatabaseError(UniqueViolation)
    ensures r.Ok? ==> r.value == users[user.username := user]
  {
    if user.username in users then Err(DatabaseError(UniqueViolation)) else Ok(users[user.username := user])
  }

  /**
   * What `create_new_user` does to the table: an incorrect username is
   * refused before the database is touched; otherwise the row is inserted.
   */
  function CreateNewUserSpec(users: UsersTable, user: User): (r: Result<UsersTable, AppError>)
    ensures !IsCorrectUsername(user.username) ==> r == Err(SignUpError("Username is invalid"))
    ensures r.Ok? <==> IsCorrectUsername(user.username) && user.username !in users
    ensures IsCorrectUsername(user.username) && user.username in users ==> r == Err(DatabaseError(UniqueViolation))
  {
    if !IsCorrectUsername(user.username) then Err(SignUpError("Username is invalid"))
    else InsertUser(users, user)
  }

  /**
   * A created user can be looked up at once and is exactly the row given;
   * every other username looks up as before.
   */
  lemma CreatedUserIsFound(users: UsersTable, user: User, other: string)
    requires CreateNewUserSpec(users, user).Ok?
    ensures var after := CreateNewUserSpec(users, user).value;
            && LookupUser(after, user.username) == Some(user)
            && (other != user.username ==> LookupUser(after, other) == LookupUser(users, other))
            && (KeyedByUsername(users) ==> KeyedByUsername(after))
  {
  }

  /**
   * The row after an update. The change's `SET` list holds `password` and
   * `avatar` when given; `username` is the primary key, which the derived
   * changeset never sets, so it only selects the row.
   */
  function ApplyUpdate(user: User, update: UpdateUser): (r: User)
    ensures r.username == user.username
    ensures r.password == (if update.password.Some? then update.password.value else user.password)
    ensures r.avatar == (if update.avatar.Some? then update.avatar else user.avatar)
  {
    User(
      user.username,
      if update.password.Some? then update.password.value else user.password,
      if update.avatar.Some? then update.avatar else user.avatar)
  }

  /**
   * What `update_user` does to the table. With neither a password nor an
   * avatar there is nothing to set and the statement is refused, whatever
   * the username. The filter compares the username column with
   * `update.username`; a missing username compares with NULL and matches
   * no row, and a name with no row matches none either.
   */
  function UpdateUserSpec(users: UsersTable, update: UpdateUser): (r: Result<UsersTable, AppError>)
    ensures r.Err? <==> update.password.None? && update.avatar.None?
    ensures r.Err? ==> r.error == DatabaseError(EmptyChangeset)
    ensures r.Ok? ==> r.value.Keys == users.Keys
    ensures r.Ok? ==> forall name :: name in users && Some(name) != update.username ==> r.value[name] == users[name]
    ensures r.Ok? && update.username.Some? && update.username.value in users
            ==> r.value[update.username.value] == ApplyUpdate(users[update.username.value], update)
  {
    if update.password.None? && update.avatar.None? then Err(DatabaseError(EmptyChangeset))
    else if update.username.None? || update.username.value !in users then Ok(users)
    else
      var name := update.username.value;
      Ok(users[name := ApplyUpdate(users[name], update)])
  }

  /** An update keeps every row under its own username, since the username is never part of the change. */
  lemma UpdateKeepsKeys(users: UsersTable, update: UpdateUser)
    requires KeyedByUsername(users)
    requires UpdateUserSpec(users, update).Ok?
    ensures KeyedByUsername(UpdateUserSpec(users, update).value)
  {
    var after := UpdateUserSpec(users, update).value;
    forall name | name in after ensures after[name].username == name {
      if Some(name) == update.username {
        assert after[name] == ApplyUpdate(users[name], update);
      } else {
        assert after[name] == users[name];
      }
    }
  }

  /** Running the same update twice leaves the table as running it once. */
  lemma UpdateIdempotent(users: UsersTable, update: UpdateUser)
    requires UpdateUserSpec(users, update).Ok?
    ensures UpdateUserSpec(UpdateUserSpec(users, update).value, update) == UpdateUserSpec(users, update)
  {
    var once := UpdateUserSpec(users, update).value;
    if update.username.Some? && update.username.value in users {
      var name := update.username.value;
      assert ApplyUpdate(once[name], update) == once[name];
      assert once[name := once[name]] == once;
    }
  }

  class Repository {
    const db: Database

    constructor(db: Database)
      ensures this.db == db
    {
      this.db := db;
    }

    method CreateNewUser(user: User) returns (r: Result<(), AppError>)
      requires db.Valid()
      modifies db`users
      ensures db.Valid()
      ensures CreateNewUserSpec(old(db.users), user).Ok? ==> r == Ok(()) && db.users == CreateNewUserSpec(old(db.users), user).value
      ensures CreateNewUserSpec(old(db.users), user).Err?
              ==> r == Err(CreateNewUserSpec(old(db.users), user).error) && db.users == old(db.users)
    {
      if !IsCorrectUsername(user.username) {
        return Err(SignUpError("Username is invalid"));
      }
      if user.username in db.users {
        return Err(DatabaseError(UniqueViolation));
      }
      db.users := db.users[user.username := user];
      r := Ok(());
    }

    method GetUserByUsername(name: string) returns (r: Result<Option<User>, AppError>)
      ensures r == Ok(LookupUser(db.users, name))
    {
      if name in db.users {
        r := Ok(Some(db.users[name]));
      } else {
        r := Ok(None);
      }
    }

    method UpdateUser(update: UpdateUser) returns (r: Result<(), AppError>)
      requires db.Valid()
      modifies db`users
      ensures db.Valid()
      ensures UpdateUserSpec(old(db.users), update).Ok? ==> r == Ok(()) && db.users == UpdateUserSpec(old(db.users), update).value
      ensures UpdateUserSpec(old(db.users), update).Err?
              ==> r == Err(UpdateUserSpec(old(db.users), update).error) && db.users == old(db.users)
    {
      if update.password.None? && update.avatar.None? {
        return Err(DatabaseError(EmptyChangeset));
      }
      UpdateKeepsKeys(db.users, update);
      if update.username.Some? && update.username.value in db.users {
        var name := update.username.value;
        db.users := db.users[name := ApplyUpdate(db.users[name], update)];
      }
      r := Ok(());
    }
  }
}
