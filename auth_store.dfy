// The session and user repositories as one mutable object: each table is a
// field, and each repository call changes the fields exactly as the matching
// function of Auth says.
module AuthStore {
  import opened Wrappers
  import opened Auth

  class AuthStore {
    var sessions: map<string, Session>
    var users: map<nat, User>
    var nextUserId: nat

    /** The tables as one value. */
    function State(): AuthDb
      reads this
    {
      AuthDb(sessions, users, nextUserId)
    }

    ghost predicate Valid()
      reads this
    {
      Auth.Valid(State())
    }

    /** Empty tables; the user id sequence starts at 1. */
    constructor ()
      ensures Valid() && State() == AuthDb(map[], map[], 1)
    {
      sessions := map[];
      users := map[];
      nextUserId := 1;
    }

    // ------------------------------------------------------ session repository

    /** `session.create`. */
    method CreateSession(id: string, state: string, redirectUrl: Option<string>, now: int) returns (r: Result<(), AuthError>)
      requires Valid()
      modifies this
      ensures Valid()
      ensures r.Err? <==> Auth.CreateSession(old(State()), id, state, redirectUrl, now).Err?
      ensures r.Ok? ==> State() == Auth.CreateSession(old(State()), id, state, redirectUrl, now).value
      ensures r.Err? ==> State() == old(State())
    {
      if id in sessions {
        r := Err(SessionIdTaken);
      } else {
        sessions := sessions[id := Session(id, state, redirectUrl, None, None, None, None, None, None, now, now, None)];
        r := Ok(());
      }
    }

    /** `session.findByState`: the query has no order, so any row with that state may be the one returned. */
    method FindByState(state: string) returns (r: Option<Session>)
      requires Valid()
      ensures r.Some? <==> exists k | k in sessions :: sessions[k].state == state
      ensures r.Some? ==> r.value.id in sessions && sessions[r.value.id] == r.value && r.value.state == state
    {
      if exists k | k in sessions :: sessions[k].state == state {
        var k :| k in sessions && sessions[k].state == state;
        r := Some(sessions[k]);
      } else {
        r := None;
      }
    }

    /** `session.findById`. */
    method FindById(id: string) returns (r: Option<Session>)
      ensures r.Some? <==> id in sessions
      ensures r.Some? ==> r.value == sessions[id]
    {
      r := if id in sessions then Some(sessions[id]) else None;
    }

    /** `session.update`. */
    method UpdateSession(s: Session, now: int) returns (r: Result<(), AuthError>)
      requires Valid()
      modifies this
      ensures Valid()
      ensures r.Err? <==> Auth.UpdateSession(old(State()), s, now).Err?
      ensures r.Ok? ==> State() == Auth.UpdateSession(old(State()), s, now).value
      ensures r.Err? ==> r.error == SessionNotFound && State() == old(State())
    {
      if s.id !in sessions {
        r := Err(SessionNotFound);
      } else {
        sessions := sessions[s.id := Overwrite(sessions[s.id], s, now)];
        r := Ok(());
      }
    }

    /** `session.deleteSessionsNotCompletedByUser`. */
    method DeleteSessionsNotCompletedByUser(now: int)
      requires Valid()
      modifies this
      ensures Valid()
      ensures State() == Purge(old(State()), now)
    {
      sessions := map k | k in sessions && !Abandoned(sessions[k], now) :: sessions[k];
    }

    // --------------------------------------------------------- user repository

    /** `user.add`. */
    method AddUser(u: NewUser, now: int) returns (id: nat)
      requires Valid()
      modifies this
      ensures Valid()
      ensures (State(), id) == Auth.AddUser(old(State()), u, now)
    {
      AddUserValid(State(), u, now);
      id := nextUserId;
      users := users[id := User(id, u.sub, u.firstName, u.lastName, u.email, u.organization, u.about, u.isPublic, now, now)];
      nextUserId := id + 1;
    }

    /** `user.update`: read the row, compare the given keys, write only when one differs. */
    method UpdateUser(p: UserPatch, now: int) returns (r: Result<(), AuthError>)
      requires Valid()
      modifies this
      ensures Valid()
      ensures r.Err? <==> Auth.UpdateUser(old(State()), p, now).Err?
      ensures r.Ok? ==> State() == Auth.UpdateUser(old(State()), p, now).value
      ensures r.Err? ==> r.error == UserNotFound && State() == old(State())
    {
      if p.id !in users {
        r := Err(UserNotFound);
        return;
      }
      var row := users[p.id];
      if HasChanges(row, p) {
        users := users[p.id := Patched(row, p, now)];
      }
      r := Ok(());
    }

    /** `user.remove`. */
    method RemoveUser(id: nat)
      requires Valid()
      modifies this
      ensures Valid()
      ensures State() == Auth.RemoveUser(old(State()), id)
    {
      users := map i | i in users && i != id :: users[i];
    }

    /** `user.getBySub`: any user with that subject (the query has no order). */
    method GetBySub(sub: string, decls: nat -> Declarations) returns (r: Option<UserWithId>)
      requires Valid()
      ensures LookupBySub(State(), sub, r, decls)
    {
      if exists i | i in users :: users[i].sub == Some(sub) {
        var i :| i in users && users[i].sub == Some(sub);
        r := Some(UserView(State(), i, decls));
      } else {
        r := None;
      }
    }

    /** `user.getByEmail`: any user with that e-mail (the query has no order). */
    method GetByEmail(email: string, decls: nat -> Declarations) returns (r: Option<UserWithId>)
      requires Valid()
      ensures LookupByEmail(State(), email, r, decls)
    {
      if exists i | i in users :: users[i].email == email {
        var i :| i in users && users[i].email == email;
        r := Some(UserView(State(), i, decls));
      } else {
        r := None;
      }
    }

    /** `user.getBySessionId`. */
    method GetBySessionId(sessionId: string, now: int, decls: nat -> Declarations) returns (r: Option<UserWithId>)
      ensures r == UserBySessionId(State(), sessionId, now, decls)
    {
      r := None;
      if sessionId in sessions {
        var s := sessions[sessionId];
        if LiveSession(s, now) && s.userId.Some? && s.userId.value in users {
          r := Some(UserView(State(), s.userId.value, decls));
        }
      }
    }
  }
}
