/**
 * Statements on the `sessions` table: starting a session (which first
 * ends the user's other sessions), ending one, and finding a session's user.
 */
module SessionRepository {
  import opened Wrappers
  import opened Tables

  /** `DELETE FROM sessions WHERE username = name`. */
  function WithoutUser(sessions: SessionsTable, name: string): (r: SessionsTable)
    ensures forall id :: id in r <==> id in sessions && sessions[id] != name
    ensures forall id :: id in r ==> r[id] == sessions[id]
  {
    map id | id in sessions && sessions[id] != name :: sessions[id]
  }

  /**
   * `add_session`: delete the user's sessions, then insert the new row. The
   * insert fails on a session id already held by another user (the primary
   * key, checked as the row goes in) and otherwise on a user that `users`
   * does not hold (the foreign key, checked once the row is in). The two
   * statements are not one transaction, so after a failed insert the
   * deletion stays.
   */
  function AddSessionSpec(users: UsersTable, sessions: SessionsTable, session: Session): (out: (SessionsTable, Result<(), AppError>))
    ensures out.1.Err? <==> (session.sessionId in sessions && sessions[session.sessionId] != session.username)
                            || session.username !in users
    ensures session.sessionId in sessions && sessions[session.sessionId] != session.username
            ==> out.1 == Err(DatabaseError(UniqueViolation))
    ensures !(session.sessionId in sessions && sessions[session.sessionId] != session.username) && session.username !in users
            ==> out.1 == Err(DatabaseError(ForeignKeyViolation))
    ensures out.1.Err? ==> out.0 == WithoutUser(sessions, session.username)
    ensures out.1.Ok? ==> session.sessionId in out.0 && out.0[session.sessionId] == session.username
    ensures forall id :: id in out.0 && out.0[id] == session.username ==> id == session.sessionId
  {
    var cleared := WithoutUser(sessions, session.username);
    if session.sessionId in cleared then (cleared, Err(DatabaseError(UniqueViolation)))
    else if session.username !in users then (cleared, Err(DatabaseError(ForeignKeyViolation)))
    else (cleared[session.sessionId := session.username], Ok(()))
  }

  /**
   * Starting a session touches no other user's session and invents none:
   * every row after it is the new one or an earlier row of another user.
   */
  lemma AddSessionKeepsOthers(users: UsersTable, sessions: SessionsTable, session: Session)
    ensures var after := AddSessionSpec(users, sessions, session).0;
            && (forall id :: id in sessions && sessions[id] != session.username ==> id in after && after[id] == sessions[id])
            && (forall id :: id in after && id != session.sessionId
                  ==> id in sessions && after[id] == sessions[id] && sessions[id] != session.username)
  {
  }

  /** Whatever the insert's outcome, every user still holds at most one session. */
  lemma AddSessionOneSessionPerUser(users: UsersTable, sessions: SessionsTable, session: Session)
    requires OneSessionPerUser(sessions)
    ensures OneSessionPerUser(AddSessionSpec(users, sessions, session).0)
  {
    var after := AddSessionSpec(users, sessions, session).0;
    AddSessionKeepsOthers(users, sessions, session);
    forall a, b | a in after && b in after && after[a] == after[b] ensures a == b {
      if a != session.sessionId && b != session.sessionId {
        assert sessions[a] == sessions[b];
      }
    }
  }

  /** Whatever the insert's outcome, every session's user still exists. */
  lemma AddSessionKeepsOwners(users: UsersTable, sessions: SessionsTable, session: Session)
    requires SessionsOwned(users, sessions)
    ensures SessionsOwned(users, AddSessionSpec(users, sessions, session).0)
  {
    AddSessionKeepsOthers(users, sessions, session);
  }

  /** `delete_session`: remove the row with that id, if any. */
  function DeleteSessionSpec(sessions: SessionsTable, id: string): (r: SessionsTable)
    ensures id !in r
    ensures forall other :: other != id ==> (other in r <==> other in sessions)
    ensures forall other :: other in r ==> r[other] == sessions[other]
  {
    sessions - {id}
  }

  /** Ending an absent session changes nothing, and ending a session twice is ending it once. */
  lemma DeleteSessionIdempotent(sessions: SessionsTable, id: string)
    ensures id !in sessions ==> DeleteSessionSpec(sessions, id) == sessions
    ensures DeleteSessionSpec(DeleteSessionSpec(sessions, id), id) == DeleteSessionSpec(sessions, id)
    ensures OneSessionPerUser(sessions) ==> OneSessionPerUser(DeleteSessionSpec(sessions, id))
    ensures forall users :: SessionsOwned(users, sessions) ==> SessionsOwned(users, DeleteSessionSpec(sessions, id))
  {
  }

  /**
   * `get_user_by_session`: the session row left-joined with its user. An
   * unknown id has no row for `first()` and is an error; a known id whose
   * user is gone yields no user.
   */
  function UserBySessionSpec(users: UsersTable, sessions: SessionsTable, id: string): (r: Result<Option<User>, AppError>)
    ensures r.Err? <==> id !in sessions
    ensures r.Err? ==> r.error == DatabaseError(NotFound)
    ensures r == Ok(None) <==> id in sessions && sessions[id] !in users
  {
    if id !in sessions then Err(DatabaseError(NotFound)) else Ok(LookupUser(users, sessions[id]))
  }

  /** The user found for a session is the one the session names, as stored. */
  lemma UserBySessionIsOwner(users: UsersTable, sessions: SessionsTable, id: string)
    requires KeyedByUsername(users)
    requires UserBySessionSpec(users, sessions, id).Ok? && UserBySessionSpec(users, sessions, id).value.Some?
    ensures var u := UserBySessionSpec(users, sessions, id).value.value;
            u.username == sessions[id] && u == users[sessions[id]]
  {
  }

  /** While the foreign key holds, a known session always finds its user: the left join never comes back empty. */
  lemma UserBySessionOwned(users: UsersTable, sessions: SessionsTable, id: string)
    requires SessionsOwned(users, sessions)
    ensures id in sessions ==> UserBySessionSpec(users, sessions, id) == Ok(Some(users[sessions[id]]))
  {
  }

  class Repository {
    const db: Database

    constructor(db: Database)
      ensures this.db == db
    {
      this.db := db;
    }

    method AddSession(session: Session) returns (r: Result<(), AppError>)
      requires db.Valid()
      modifies db`sessions
      ensures db.Valid()
      ensures db.users == old(db.users)
      ensures (db.sessions, r) == AddSessionSpec(db.users, old(db.sessions), session)
    {
      AddSessionOneSessionPerUser(db.users, db.sessions, session);
      AddSessionKeepsOwners(db.users, db.sessions, session);
      db.sessions := WithoutUser(db.sessions, session.username);
      if session.sessionId in db.sessions {
        return Err(DatabaseError(UniqueViolation));
      }
      if session.username !in db.users {
        return Err(DatabaseError(ForeignKeyViolation));
      }
      db.sessions := db.sessions[session.sessionId := session.username];
      r := Ok(());
    }

    method DeleteSession(id: string) returns (r: Result<(), AppError>)
      requires db.Valid()
      modifies db`sessions
      ensures db.Valid()
      ensures r == Ok(()) && db.sessions == DeleteSessionSpec(old(db.sessions), id)
    {
      DeleteSessionIdempotent(db.sessions, id);
      db.sessions := db.sessions - {id};
      r := Ok(());
    }

    method GetUserBySession(id: string) returns (r: Result<Option<User>, AppError>)
      ensures r == UserBySessionSpec(db.users, db.sessions, id)
    {
      if id !in db.sessions {
        return Err(DatabaseError(NotFound));
      }
      var name := db.sessions[id];
      if name in db.users {
        r := Ok(Some(db.users[name]));
      } else {
        r := Ok(None);
      }
    }
  }
}
