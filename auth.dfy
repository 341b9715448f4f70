// Sign-in state on the API side: the `user_sessions` and `users` tables as
// values, the repository operations on them as functions, and the decisions
// of the authentication use cases (callback, refresh, logout and the
// per-request context) as functions over those tables. The identity
// provider is a parameter: the tokens it hands out, the user it describes
// and the logout URL it builds.
module Auth {
  import opened Wrappers

  /** Session length when the provider gives no `expires_in`: six hours. */
  const DEFAULT_SESSION_DURATION_MS: int := 6 * 60 * 60 * 1000

  /** Age after which a session that never got a user is purged. */
  const ONE_DAY_MS: int := 1000 * 60 * 60 * 24

  /** One row of `user_sessions`; times are milliseconds, `None` is SQL null. */
  datatype Session = Session(
    id: string,
    state: string,
    redirectUrl: Option<string>,
    userId: Option<nat>,
    email: Option<string>,
    accessToken: Option<string>,
    refreshToken: Option<string>,
    idToken: Option<string>,
    expiresAt: Option<int>,
    createdAt: int,
    updatedAt: int,
    loggedOutAt: Option<int>)

  /** One row of `users`. */
  datatype User = User(
    id: nat,
    sub: Option<string>,
    firstName: Option<string>,
    lastName: Option<string>,
    email: string,
    organization: Option<string>,
    about: Option<string>,
    isPublic: bool,
    createdAt: int,
    updatedAt: int)

  /** The two tables, and the next value of the `users.id` sequence. */
  datatype AuthDb = AuthDb(sessions: map<string, Session>, users: map<nat, User>, nextUserId: nat)

  datatype AuthError =
    | SessionIdTaken
    | SessionNotFound
    | UserNotFound
    | NoRefreshToken
    | UnknownState
    | RefreshFailed

  /** Rows are stored under their own id, and user ids come from a sequence that starts at 1. */
  predicate Valid(db: AuthDb)
  {
    && 1 <= db.nextUserId
    && (forall k | k in db.sessions :: db.sessions[k].id == k)
    && (forall i | i in db.users :: db.users[i].id == i && 1 <= i < db.nextUserId)
  }

  /** JavaScript truthiness of a nullable string: present and not empty. */
  predicate Truthy(s: Option<string>)
  {
    s.Some? && s.value != ""
  }

  // ------------------------------------------------------- session repository

  /** `session.create`: a new row with its id, state and redirect URL, and nothing else set. */
  function CreateSession(db: AuthDb, id: string, state: string, redirectUrl: Option<string>, now: int): (r: Result<AuthDb, AuthError>)
    ensures r.Err? <==> id in db.sessions
    ensures r.Ok? ==> r.value.users == db.users && r.value.nextUserId == db.nextUserId
    ensures r.Ok? ==> r.value.sessions.Keys == db.sessions.Keys + {id}
    ensures r.Ok? ==> forall k | k in db.sessions :: r.value.sessions[k] == db.sessions[k]
    ensures r.Ok? ==>
      var s := r.value.sessions[id];
      && s.id == id && s.state == state && s.redirectUrl == redirectUrl
      && s.userId.None? && s.email.None? && s.accessToken.None? && s.refreshToken.None? && s.idToken.None?
      && s.expiresAt.None? && s.loggedOutAt.None? && s.createdAt == now && s.updatedAt == now
  {
    if id in db.sessions then Err(SessionIdTaken)
    else
      var s := Session(id, state, redirectUrl, None, None, None, None, None, None, now, now, None);
      Ok(db.(sessions := db.sessions[id := s]))
  }

  /**
   * The row that `session.update` leaves: the caller's user, e-mail, tokens,
   * expiry and logout time over the stored row, whose id, state, redirect URL
   * and creation time stay.
   */
  function Overwrite(row: Session, s: Session, now: int): (r: Session)
    ensures r.id == row.id && r.state == row.state && r.redirectUrl == row.redirectUrl && r.createdAt == row.createdAt
    ensures r.userId == s.userId && r.email == s.email && r.accessToken == s.accessToken
    ensures r.refreshToken == s.refreshToken && r.idToken == s.idToken
    ensures r.expiresAt == s.expiresAt && r.loggedOutAt == s.loggedOutAt
    ensures r.updatedAt == now
  {
    row.(userId := s.userId, email := s.email, accessToken := s.accessToken, refreshToken := s.refreshToken,
         idToken := s.idToken, expiresAt := s.expiresAt, loggedOutAt := s.loggedOutAt, updatedAt := now)
  }

  /** Writing back a spread of the stored row stores exactly that record, with a new `updatedAt`. */
  lemma OverwriteWithSpread(row: Session, s: Session, now: int)
    requires s.id == row.id && s.state == row.state && s.redirectUrl == row.redirectUrl && s.createdAt == row.createdAt
    ensures Overwrite(row, s, now) == s.(updatedAt := now)
  {
  }

  /** `session.update`: throws when no row has that id; otherwise only that row changes. */
  function UpdateSession(db: AuthDb, s: Session, now: int): (r: Result<AuthDb, AuthError>)
    ensures r.Err? <==> s.id !in db.sessions
    ensures r.Ok? ==> r.value.users == db.users && r.value.nextUserId == db.nextUserId
    ensures r.Ok? ==> r.value.sessions.Keys == db.sessions.Keys
    ensures r.Ok? ==> r.value.sessions[s.id] == Overwrite(db.sessions[s.id], s, now)
    ensures r.Ok? ==> forall k | k in db.sessions && k != s.id :: r.value.sessions[k] == db.sessions[k]
  {
    if s.id !in db.sessions then Err(SessionNotFound)
    else Ok(db.(sessions := db.sessions[s.id := Overwrite(db.sessions[s.id], s, now)]))
  }

  /** A session that never got a user and was created more than a day before `now`. */
  predicate Abandoned(s: Session, now: int)
  {
    s.userId.None? && s.createdAt < now - ONE_DAY_MS
  }

  /** `deleteSessionsNotCompletedByUser`. */
  function Purge(db: AuthDb, now: int): (r: AuthDb)
    ensures r.users == db.users && r.nextUserId == db.nextUserId
    ensures forall k :: k in r.sessions <==> k in db.sessions && !Abandoned(db.sessions[k], now)
    ensures forall k | k in r.sessions :: r.sessions[k] == db.sessions[k]
  {
    db.(sessions := map k | k in db.sessions && !Abandoned(db.sessions[k], now) :: db.sessions[k])
  }

  /** A session with a user, or one less than a day old, survives the purge; purging twice is purging once. */
  lemma PurgeKeeps(db: AuthDb, now: int, k: string)
    requires k in db.sessions
    requires db.sessions[k].userId.Some? || db.sessions[k].createdAt >= now - ONE_DAY_MS
    ensures k in Purge(db, now).sessions && Purge(db, now).sessions[k] == db.sessions[k]
    ensures Purge(Purge(db, now), now) == Purge(db, now)
  {
  }

  // ---------------------------------------------------------- user repository

  /** The fields given to `user.add`. */
  datatype NewUser = NewUser(
    sub: Option<string>, email: string, firstName: Option<string>, lastName: Option<string>,
    organization: Option<string>, about: Option<string>, isPublic: bool)

  /** `user.add`: the row takes the next id and is stamped created and updated at `now`. */
  function AddUser(db: AuthDb, u: NewUser, now: int): (r: (AuthDb, nat))
    ensures r.1 == db.nextUserId && r.0.nextUserId == db.nextUserId + 1
    ensures r.0.sessions == db.sessions
    ensures r.0.users.Keys == db.users.Keys + {r.1}
    ensures forall i | i in db.users && i != r.1 :: r.0.users[i] == db.users[i]
    ensures var row := r.0.users[r.1];
      && row.id == r.1 && row.sub == u.sub && row.email == u.email && row.firstName == u.firstName
      && row.lastName == u.lastName && row.organization == u.organization && row.about == u.about
      && row.isPublic == u.isPublic && row.createdAt == now && row.updatedAt == now
  {
    var id := db.nextUserId;
    var row := User(id, u.sub, u.firstName, u.lastName, u.email, u.organization, u.about, u.isPublic, now, now);
    (db.(users := db.users[id := row], nextUserId := id + 1), id)
  }

  /** Adding a user keeps the tables consistent, and its id is new and non-zero. */
  lemma AddUserValid(db: AuthDb, u: NewUser, now: int)
    requires Valid(db)
    ensures var (db1, id) := AddUser(db, u, now);
      Valid(db1) && id !in db.users && id != 0
  {
  }

  /** One key of the object given to `user.update`: missing, present with value `undefined`, or a value. */
  datatype Field<T> = Omitted | Undefined | Given(value: T)

  /** The object given to `user.update`, without its `declarations` (which are destructured away). */
  datatype UserPatch = UserPatch(
    id: nat,
    sub: Field<Option<string>>,
    firstName: Field<Option<string>>,
    lastName: Field<Option<string>>,
    email: Field<string>,
    organization: Field<Option<string>>,
    about: Field<Option<string>>,
    isPublic: Field<bool>)

  /** `currentValue !== newValue` for one key: a column read back is never `undefined`. */
  predicate Differs<T(==)>(stored: T, f: Field<T>)
  {
    f.Undefined? || (f.Given? && f.value != stored)
  }

  /** The column after the write: an `undefined` value is dropped from the `set`, so it keeps the stored value. */
  function Assign<T>(stored: T, f: Field<T>): (r: T)
    ensures f.Given? ==> r == f.value
    ensures !f.Given? ==> r == stored
  {
    if f.Given? then f.value else stored
  }

  predicate HasChanges(row: User, p: UserPatch)
  {
    || Differs(row.sub, p.sub) || Differs(row.firstName, p.firstName) || Differs(row.lastName, p.lastName)
    || Differs(row.email, p.email) || Differs(row.organization, p.organization) || Differs(row.about, p.about)
    || Differs(row.isPublic, p.isPublic)
  }

  function Patched(row: User, p: UserPatch, now: int): User
  {
    row.(sub := Assign(row.sub, p.sub), firstName := Assign(row.firstName, p.firstName),
         lastName := Assign(row.lastName, p.lastName), email := Assign(row.email, p.email),
         organization := Assign(row.organization, p.organization), about := Assign(row.about, p.about),
         isPublic := Assign(row.isPublic, p.isPublic), updatedAt := now)
  }

  /** `user.update`: throws "User not found" for an unknown id, and writes only when some given field differs. */
  function UpdateUser(db: AuthDb, p: UserPatch, now: int): (r: Result<AuthDb, AuthError>)
    ensures r.Err? <==> p.id !in db.users
    ensures r.Ok? && !HasChanges(db.users[p.id], p) ==> r.value == db
    ensures r.Ok? ==> r.value.sessions == db.sessions && r.value.nextUserId == db.nextUserId
    ensures r.Ok? ==> r.value.users.Keys == db.users.Keys
    ensures r.Ok? ==> forall i | i in db.users && i != p.id :: r.value.users[i] == db.users[i]
    ensures r.Ok? && HasChanges(db.users[p.id], p) ==>
      var row := r.value.users[p.id];
      && row.updatedAt == now && row.id == db.users[p.id].id && row.createdAt == db.users[p.id].createdAt
      && row.sub == Assign(db.users[p.id].sub, p.sub) && row.email == Assign(db.users[p.id].email, p.email)
      && row.firstName == Assign(db.users[p.id].firstName, p.firstName)
      && row.lastName == Assign(db.users[p.id].lastName, p.lastName)
      && row.organization == Assign(db.users[p.id].organization, p.organization)
      && row.about == Assign(db.users[p.id].about, p.about)
      && row.isPublic == Assign(db.users[p.id].isPublic, p.isPublic)
  {
    if p.id !in db.users then Err(UserNotFound)
    else
      var row := db.users[p.id];
      if HasChanges(row, p) then Ok(db.(users := db.users[p.id := Patched(row, p, now)])) else Ok(db)
  }

  predicate NoUndefined(p: UserPatch)
  {
    && !p.sub.Undefined? && !p.firstName.Undefined? && !p.lastName.Undefined? && !p.email.Undefined?
    && !p.organization.Undefined? && !p.about.Undefined? && !p.isPublic.Undefined?
  }

  /** Repeating an update whose keys all hold values writes nothing the second time. */
  lemma {:induction false} UpdateUserTwice(db: AuthDb, p: UserPatch, now: int, later: int)
    requires NoUndefined(p) && p.id in db.users
    ensures var db1 := UpdateUser(db, p, now).value;
      UpdateUser(db1, p, later) == Ok(db1)
  {
    var db1 := UpdateUser(db, p, now).value;
    var row := db1.users[p.id];
    if HasChanges(db.users[p.id], p) {
      assert row == Patched(db.users[p.id], p, now);
    }
    assert !HasChanges(row, p);
  }

  /** A key present with value `undefined` always counts as a change, so the row's `updatedAt` is bumped. */
  lemma UndefinedForcesWrite(db: AuthDb, p: UserPatch, now: int)
    requires p.id in db.users && !NoUndefined(p)
    ensures UpdateUser(db, p, now).value.users[p.id].updatedAt == now
  {
  }

  /** `user.remove`. */
  function RemoveUser(db: AuthDb, id: nat): (r: AuthDb)
    ensures r.sessions == db.sessions && r.nextUserId == db.nextUserId
    ensures r.users.Keys == db.users.Keys - {id}
    ensures forall i | i in r.users :: r.users[i] == db.users[i]
  {
    db.(users := map i | i in db.users && i != id :: db.users[i])
  }

  /** A declaration row of `software_users` or `software_referents`, with SQL nulls stripped. */
  datatype Declaration =
    | UserDeclaration(softwareName: string, usecaseDescription: string, version: string, os: Option<string>, serviceUrl: Option<string>)
    | ReferentDeclaration(softwareName: string, usecaseDescription: string, isTechnicalExpert: bool, serviceUrl: Option<string>)

  /** The declarations aggregated for one user, from the two declaration tables. */
  datatype Declarations = Declarations(asUser: seq<Declaration>, asReferent: seq<Declaration>)

  /** What the user query selects: the columns it names (not the names) and the two aggregates. */
  datatype RawUser = RawUser(
    id: nat, email: string, isPublic: bool, about: Option<string>, organization: Option<string>, sub: Option<string>,
    usersDeclarations: seq<Declaration>, referentsDeclarations: seq<Declaration>)

  /** `UserWithId`; here `about: None` is `undefined`. */
  datatype UserWithId = UserWithId(
    id: nat, email: string, isPublic: bool, about: Option<string>, organization: Option<string>, sub: Option<string>,
    declarations: seq<Declaration>)

  function RawOf(u: User, d: Declarations): RawUser
  {
    RawUser(u.id, u.email, u.isPublic, u.about, u.organization, u.sub, d.asUser, d.asReferent)
  }

  /** `convertDbUserToUserWithId`: no row gives no user; a null `about` becomes `undefined`. */
  function ConvertDbUser(raw: Option<RawUser>): (r: Option<UserWithId>)
    ensures r.None? <==> raw.None?
    ensures r.Some? ==>
      && r.value.id == raw.value.id && r.value.email == raw.value.email && r.value.isPublic == raw.value.isPublic
      && r.value.about == raw.value.about && r.value.organization == raw.value.organization && r.value.sub == raw.value.sub
    ensures r.Some? ==> r.value.declarations == raw.value.usersDeclarations + raw.value.referentsDeclarations
  {
    if raw.None? then None
    else
      var u := raw.value;
      Some(UserWithId(u.id, u.email, u.isPublic, u.about, u.organization, u.sub, u.usersDeclarations + u.referentsDeclarations))
  }

  /** A user as the lookups return it. */
  function UserView(db: AuthDb, id: nat, decls: nat -> Declarations): UserWithId
    requires id in db.users
  {
    ConvertDbUser(Some(RawOf(db.users[id], decls(id)))).value
  }

  /** The session filter of `getBySessionId`: not logged out, and no expiry or one after `now`. */
  predicate LiveSession(s: Session, now: int)
  {
    s.loggedOutAt.None? && (s.expiresAt.None? || s.expiresAt.value > now)
  }

  /** `user.getBySessionId`: the user joined to a live session with that id. */
  function UserBySessionId(db: AuthDb, sessionId: string, now: int, decls: nat -> Declarations): (r: Option<UserWithId>)
    ensures r.Some? <==>
      && sessionId in db.sessions && LiveSession(db.sessions[sessionId], now)
      && db.sessions[sessionId].userId.Some? && db.sessions[sessionId].userId.value in db.users
    ensures r.Some? ==> r.value == UserView(db, db.sessions[sessionId].userId.value, decls)
  {
    if sessionId in db.sessions && LiveSession(db.sessions[sessionId], now)
       && db.sessions[sessionId].userId.Some? && db.sessions[sessionId].userId.value in db.users
    then Some(UserView(db, db.sessions[sessionId].userId.value, decls))
    else None
  }

  /** The user lookups by subject and by e-mail: some row with that value, none if there is no such row. */
  predicate LookupBySub(db: AuthDb, sub: string, found: Option<UserWithId>, decls: nat -> Declarations)
  {
    if exists i | i in db.users :: db.users[i].sub == Some(sub)
    then found.Some? && found.value.id in db.users && db.users[found.value.id].sub == Some(sub)
         && found.value == UserView(db, found.value.id, decls)
    else found.None?
  }

  predicate LookupByEmail(db: AuthDb, email: string, found: Option<UserWithId>, decls: nat -> Declarations)
  {
    if exists i | i in db.users :: db.users[i].email == email
    then found.Some? && found.value.id in db.users && db.users[found.value.id].email == email
         && found.value == UserView(db, found.value.id, decls)
    else found.None?
  }

  // ------------------------------------------------------------ the provider

  /** The tokens the provider hands out; `expiresIn` is in seconds. */
  datatype Tokens = Tokens(accessToken: string, refreshToken: Option<string>, expiresIn: Option<int>, idToken: Option<string>)

  /** The provider's description of the signed-in person. */
  datatype UserInfo = UserInfo(sub: string, email: string, givenName: Option<string>, familyName: Option<string>, usualName: Option<string>)

  /** `expires_in * 1000` when the provider gives a non-zero one, else the default. */
  function SessionDurationMs(expiresIn: Option<int>): (r: int)
    ensures expiresIn.Some? && expiresIn.value != 0 ==> r == expiresIn.value * 1000
    ensures expiresIn.None? || expiresIn.value == 0 ==> r == DEFAULT_SESSION_DURATION_MS
  {
    if expiresIn.Some? && expiresIn.value != 0 then expiresIn.value * 1000 else DEFAULT_SESSION_DURATION_MS
  }

  // ------------------------------------------------------------ refreshSession

  /** The record `refreshSession` builds: new access token and expiry, old refresh and id tokens when none come back. */
  function Refreshed(s: Session, t: Tokens, now: int): (r: Session)
    ensures r.accessToken == Some(t.accessToken)
    ensures r.refreshToken == (if t.refreshToken.Some? then t.refreshToken else s.refreshToken)
    ensures r.idToken == (if t.idToken.Some? then t.idToken else s.idToken)
    ensures r.expiresAt == Some(now + SessionDurationMs(t.expiresIn))
    ensures r.(accessToken := s.accessToken, refreshToken := s.refreshToken, idToken := s.idToken, expiresAt := s.expiresAt) == s
  {
    s.(accessToken := Some(t.accessToken),
       refreshToken := if t.refreshToken.Some? then t.refreshToken else s.refreshToken,
       idToken := if t.idToken.Some? then t.idToken else s.idToken,
       expiresAt := Some(now + SessionDurationMs(t.expiresIn)))
  }

  /**
   * `refreshSession(session)`: no refresh token throws before the provider is
   * asked; `refresh` is the provider's answer to the refresh token (`None`
   * when it throws); the new record is stored and returned.
   */
  function RefreshSession(db: AuthDb, s: Session, refresh: string -> Option<Tokens>, now: int): (r: Result<(AuthDb, Session), AuthError>)
    ensures !Truthy(s.refreshToken) ==> r == Err(NoRefreshToken)
    ensures Truthy(s.refreshToken) && refresh(s.refreshToken.value).None? ==> r == Err(RefreshFailed)
    ensures r.Err? ==> r.error in {NoRefreshToken, RefreshFailed, SessionNotFound}
    ensures r.Ok? ==> r.value.0.users == db.users && r.value.0.sessions.Keys == db.sessions.Keys
    ensures r.Ok? ==> var t := refresh(s.refreshToken.value).value;
      && r.value.1.id == s.id && r.value.1.userId == s.userId
      && r.value.1.accessToken == Some(t.accessToken)
      && r.value.1.refreshToken == (if t.refreshToken.Some? then t.refreshToken else s.refreshToken)
  {
    if !Truthy(s.refreshToken) then Err(NoRefreshToken)
    else
      var t := refresh(s.refreshToken.value);
      if t.None? then Err(RefreshFailed)
      else
        var u := Refreshed(s, t.value, now);
        var w := UpdateSession(db, u, now);
        if w.Err? then Err(w.error) else Ok((w.value, u))
  }

  /** A refresh of a stored session stores exactly the record it returns (bar `updatedAt`), and fails only for the reasons the source throws. */
  lemma RefreshStores(db: AuthDb, s: Session, refresh: string -> Option<Tokens>, now: int)
    requires Valid(db) && s.id in db.sessions && db.sessions[s.id] == s
    ensures var r := RefreshSession(db, s, refresh, now);
      && (r.Err? <==> !Truthy(s.refreshToken) || refresh(s.refreshToken.value).None?)
      && (r.Ok? ==> r.value.1 == Refreshed(s, refresh(s.refreshToken.value).value, now)
                    && r.value.0.sessions[s.id] == r.value.1.(updatedAt := now)
                    && r.value.0.users == db.users)
  {
    if Truthy(s.refreshToken) && refresh(s.refreshToken.value).Some? {
      OverwriteWithSpread(s, Refreshed(s, refresh(s.refreshToken.value).value, now), now);
    }
  }

  // -------------------------------------------------------------- createContext

  /** `!session.expiresAt || session.expiresAt < new Date()`. */
  predicate Expired(s: Session, now: int)
  {
    s.expiresAt.None? || s.expiresAt.value < now
  }

  /** Not logged out and with a (truthy) user id. */
  predicate SignedIn(s: Session)
  {
    s.loggedOutAt.None? && s.userId.Some? && s.userId.value != 0
  }

  /** What one request leaves behind: the tables, the user of the context, and whether the cookie is cleared. */
  datatype ContextOutcome = ContextOutcome(db: AuthDb, currentUser: Option<UserWithId>, clearCookie: bool)

  /**
   * `createContext` for a request carrying the `sessionId` cookie `cookie`.
   * An error is the one the logout write of the failure branch would throw.
   */
  function CreateContext(db: AuthDb, cookie: Option<string>, now: int, refresh: string -> Option<Tokens>, decls: nat -> Declarations): (r: Result<ContextOutcome, AuthError>)
    ensures r.Ok? && r.value.currentUser.Some? ==>
      Truthy(cookie) && cookie.value in db.sessions && SignedIn(db.sessions[cookie.value])
    ensures r.Ok? && r.value.clearCookie ==> r.value.currentUser.None?
    ensures r.Ok? ==> r.value.db.users == db.users && r.value.db.sessions.Keys == db.sessions.Keys
    ensures r.Ok? && r.value.db != db ==>
      Truthy(cookie) && cookie.value in db.sessions && Expired(db.sessions[cookie.value], now)
  {
    if !Truthy(cookie) then Ok(ContextOutcome(db, None, false))
    else
      var id := cookie.value;
      if id !in db.sessions || !SignedIn(db.sessions[id]) then Ok(ContextOutcome(db, None, false))
      else
        var s := db.sessions[id];
        if Expired(s, now) && Truthy(s.refreshToken) then
          var rs := RefreshSession(db, s, refresh, now);
          if rs.Ok? then Ok(ContextOutcome(rs.value.0, UserBySessionId(rs.value.0, id, now, decls), false))
          else
            var w := UpdateSession(db, s.(loggedOutAt := Some(now)), now);
            if w.Err? then Err(w.error) else Ok(ContextOutcome(w.value, None, true))
        else if Expired(s, now) then Ok(ContextOutcome(db, None, false))
        else Ok(ContextOutcome(db, UserBySessionId(db, id, now, decls), false))
  }

  /** No cookie, an unknown session, a logged-out or user-less one, or an expired one without refresh token: no user and no write. */
  lemma ContextWithoutUser(db: AuthDb, cookie: Option<string>, now: int, refresh: string -> Option<Tokens>, decls: nat -> Declarations)
    requires
      || !Truthy(cookie)
      || cookie.value !in db.sessions
      || !SignedIn(db.sessions[cookie.value])
      || (Expired(db.sessions[cookie.value], now) && !Truthy(db.sessions[cookie.value].refreshToken))
    ensures CreateContext(db, cookie, now, refresh, decls) == Ok(ContextOutcome(db, None, false))
  {
  }

  /** A signed-in session that has not expired gives the user of `getBySessionId`, with no write. */
  lemma ContextOfLiveSession(db: AuthDb, id: string, now: int, refresh: string -> Option<Tokens>, decls: nat -> Declarations)
    requires id != "" && id in db.sessions && SignedIn(db.sessions[id]) && !Expired(db.sessions[id], now)
    ensures CreateContext(db, Some(id), now, refresh, decls) == Ok(ContextOutcome(db, UserBySessionId(db, id, now, decls), false))
  {
  }

  /** "Expired" counts a missing expiry as expired, while `getBySessionId` counts it as valid. */
  lemma NullExpiryDisagreement(s: Session, now: int)
    requires s.expiresAt.None? && s.loggedOutAt.None?
    ensures Expired(s, now) && LiveSession(s, now)
  {
  }

  /**
   * An expired session whose refresh fails is marked logged out at `now`, the
   * cookie is cleared, and no user is returned; the next request with that
   * cookie gets no user and writes nothing.
   */
  lemma RefreshFailureLogsOut(db: AuthDb, id: string, now: int, later: int, refresh: string -> Option<Tokens>, decls: nat -> Declarations)
    requires Valid(db) && id != "" && id in db.sessions && SignedIn(db.sessions[id])
    requires Expired(db.sessions[id], now) && Truthy(db.sessions[id].refreshToken)
    requires refresh(db.sessions[id].refreshToken.value).None?
    ensures var r := CreateContext(db, Some(id), now, refresh, decls);
      && r.Ok? && r.value.currentUser.None? && r.value.clearCookie
      && r.value.db.sessions[id] == db.sessions[id].(loggedOutAt := Some(now), updatedAt := now)
      && CreateContext(r.value.db, Some(id), later, refresh, decls) == Ok(ContextOutcome(r.value.db, None, false))
  {
    var s := db.sessions[id];
    OverwriteWithSpread(s, s.(loggedOutAt := Some(now)), now);
  }

  /** An expired session whose refresh succeeds stores the refreshed record and gives the user joined to it. */
  lemma RefreshSuccessKeepsUser(db: AuthDb, id: string, now: int, refresh: string -> Option<Tokens>, decls: nat -> Declarations)
    requires Valid(db) && id != "" && id in db.sessions && SignedIn(db.sessions[id])
    requires Expired(db.sessions[id], now) && Truthy(db.sessions[id].refreshToken)
    requires refresh(db.sessions[id].refreshToken.value).Some?
    requires SessionDurationMs(refresh(db.sessions[id].refreshToken.value).value.expiresIn) > 0
    ensures var s := db.sessions[id];
      var r := CreateContext(db, Some(id), now, refresh, decls);
      && r.Ok? && !r.value.clearCookie
      && r.value.db.sessions[id] == Refreshed(s, refresh(s.refreshToken.value).value, now).(updatedAt := now)
      && (r.value.currentUser.Some? <==> s.userId.value in db.users)
      && (r.value.currentUser.Some? ==> r.value.currentUser.value == UserView(db, s.userId.value, decls))
  {
    RefreshStores(db, db.sessions[id], refresh, now);
  }

  /** Purging abandoned sessions never changes who a request is signed in as. */
  lemma ContextIgnoresPurge(db: AuthDb, cookie: Option<string>, now: int, t: int, refresh: string -> Option<Tokens>, decls: nat -> Declarations)
    requires Valid(db)
    ensures var a := CreateContext(db, cookie, now, refresh, decls);
      var b := CreateContext(Purge(db, t), cookie, now, refresh, decls);
      a.Ok? && b.Ok? && a.value.currentUser == b.value.currentUser && a.value.clearCookie == b.value.clearCookie
  {
    var p := Purge(db, t);
    if Truthy(cookie) && cookie.value in db.sessions && SignedIn(db.sessions[cookie.value]) {
      var id := cookie.value;
      assert id in p.sessions && p.sessions[id] == db.sessions[id];
    }
  }

  // ------------------------------------------------------------ initiateLogout

  /**
   * `initiateLogout`: an unknown session throws; otherwise it is stored
   * logged out at `now`, and the provider builds the URL from the session's
   * own id token.
   */
  function Logout(db: AuthDb, sessionId: string, now: int, logoutUrl: Option<string> -> string): (r: Result<(AuthDb, string), AuthError>)
    ensures sessionId !in db.sessions ==> r == Err(SessionNotFound)
  {
    if sessionId !in db.sessions then Err(SessionNotFound)
    else
      var s := db.sessions[sessionId];
      var w := UpdateSession(db, s.(loggedOutAt := Some(now)), now);
      if w.Err? then Err(w.error) else Ok((w.value, logoutUrl(s.idToken)))
  }

  /** After logout the stored session has `loggedOutAt` set, every other field kept, and later requests with it get no user. */
  lemma LogoutEndsSession(db: AuthDb, id: string, now: int, later: int, logoutUrl: Option<string> -> string,
                          refresh: string -> Option<Tokens>, decls: nat -> Declarations)
    requires Valid(db) && id in db.sessions
    ensures var r := Logout(db, id, now, logoutUrl);
      && r.Ok?
      && r.value.0.sessions[id] == db.sessions[id].(loggedOutAt := Some(now), updatedAt := now)
      && r.value.1 == logoutUrl(db.sessions[id].idToken)
      && CreateContext(r.value.0, Some(id), later, refresh, decls) == Ok(ContextOutcome(r.value.0, None, false))
  {
    var s := db.sessions[id];
    OverwriteWithSpread(s, s.(loggedOutAt := Some(now)), now);
  }

  // -------------------------------------------------------- handleAuthCallback

  /** The user `handleAuthCallback` adds: organisation null and not public. */
  function NewUserFrom(info: UserInfo): (u: NewUser)
    ensures u.sub == Some(info.sub) && u.email == info.email && u.organization.None? && !u.isPublic
    ensures u.firstName == info.givenName && u.lastName == (if info.familyName.Some? then info.familyName else info.usualName)
  {
    NewUser(Some(info.sub), info.email, info.givenName,
            if info.familyName.Some? then info.familyName else info.usualName, None, None, false)
  }

  /** A present value, or a key whose value is `undefined`. */
  function Present<T>(o: Option<T>): (f: Field<Option<T>>)
    ensures o.Some? ==> f == Given(o)
    ensures o.None? ==> f == Undefined
  {
    if o.Some? then Given(o) else Undefined
  }

  /** `{ ...user, id, sub, email, firstName, lastName }` for a user found by the lookups. */
  function ReturningUserPatch(user: UserWithId, info: UserInfo): (p: UserPatch)
    ensures p.id == user.id && p.sub == Given(Some(info.sub)) && p.email == Given(info.email)
    ensures p.organization == Given(user.organization) && p.isPublic == Given(user.isPublic)
    ensures p.about == Present(user.about) && p.firstName == Present(info.givenName)
    ensures p.lastName == Present(if info.familyName.Some? then info.familyName else info.usualName)
  {
    UserPatch(user.id, Given(Some(info.sub)), Present(info.givenName),
              Present(if info.familyName.Some? then info.familyName else info.usualName),
              Given(info.email), Given(user.organization), Present(user.about), Given(user.isPublic))
  }

  /** The session the callback stores: the initial one with the user, e-mail, tokens and expiry. */
  function Authenticated(initial: Session, userId: nat, info: UserInfo, t: Tokens, now: int): (r: Session)
    ensures r.userId == Some(userId) && r.email == Some(info.email)
    ensures r.accessToken == Some(t.accessToken) && r.refreshToken == t.refreshToken && r.idToken == t.idToken
    ensures r.expiresAt == Some(now + SessionDurationMs(t.expiresIn))
    ensures r.(userId := initial.userId, email := initial.email, accessToken := initial.accessToken,
               refreshToken := initial.refreshToken, idToken := initial.idToken, expiresAt := initial.expiresAt) == initial
  {
    initial.(userId := Some(userId), email := Some(info.email), accessToken := Some(t.accessToken),
             refreshToken := t.refreshToken, idToken := t.idToken, expiresAt := Some(now + SessionDurationMs(t.expiresIn)))
  }

  /**
   * `handleAuthCallback` once the session `initial` of the state is found and
   * the user lookups gave `found`: add or update the user, then store and
   * return the signed-in session.
   */
  function Callback(db: AuthDb, initial: Session, found: Option<UserWithId>, t: Tokens, info: UserInfo, now: int): (r: Result<(AuthDb, Session), AuthError>)
    ensures r.Err? <==> initial.id !in db.sessions || (found.Some? && found.value.id !in db.users)
    ensures r.Ok? ==> r.value.1.id == initial.id && r.value.1.email == Some(info.email)
    ensures r.Ok? ==> r.value.1.userId == Some(if found.Some? then found.value.id else db.nextUserId)
    ensures r.Ok? ==> r.value.1.userId.value in r.value.0.users || found.Some?
  {
    var step: Result<(AuthDb, nat), AuthError> :=
      if found.None? then Ok(AddUser(db, NewUserFrom(info), now))
      else
        var w := UpdateUser(db, ReturningUserPatch(found.value, info), now);
        if w.Err? then Err(w.error) else Ok((w.value, found.value.id));
    if step.Err? then Err(step.error)
    else
      var s := Authenticated(initial, step.value.1, info, t, now);
      var w := UpdateSession(step.value.0, s, now);
      if w.Err? then Err(w.error) else Ok((w.value, s))
  }

  /**
   * A callback on a stored session succeeds; the stored user has the
   * provider's e-mail and subject; a found user keeps its id and a new one
   * gets a fresh id; the stored session is the returned one (bar `updatedAt`).
   */
  lemma {:induction false} CallbackSignsIn(db: AuthDb, initial: Session, found: Option<UserWithId>, t: Tokens, info: UserInfo, now: int)
    requires Valid(db) && initial.id in db.sessions && db.sessions[initial.id] == initial
    requires found.Some? ==> found.value.id in db.users
    ensures var r := Callback(db, initial, found, t, info, now);
      && r.Ok?
      && Valid(r.value.0)
      && r.value.1 == Authenticated(initial, r.value.1.userId.value, info, t, now)
      && r.value.0.sessions[initial.id] == r.value.1.(updatedAt := now)
      && (found.Some? ==> r.value.1.userId == Some(found.value.id))
      && (found.None? ==> r.value.1.userId == Some(db.nextUserId) && db.nextUserId !in db.users)
      && r.value.1.userId.value in r.value.0.users
      && r.value.0.users[r.value.1.userId.value].email == info.email
      && r.value.0.users[r.value.1.userId.value].sub == Some(info.sub)
  {
    var db1: AuthDb;
    var uid: nat;
    if found.None? {
      AddUserValid(db, NewUserFrom(info), now);
      db1, uid := AddUser(db, NewUserFrom(info), now).0, db.nextUserId;
    } else {
      var p := ReturningUserPatch(found.value, info);
      uid := found.value.id;
      db1 := UpdateUser(db, p, now).value;
      assert HasChanges(db.users[uid], p) ==> db1.users[uid] == Patched(db.users[uid], p, now);
      assert Valid(db1);
    }
    var s := Authenticated(initial, uid, info, t, now);
    OverwriteWithSpread(initial, s, now);
    assert Callback(db, initial, found, t, info, now) == Ok((UpdateSession(db1, s, now).value, s));
  }

  /** Right after a callback with a positive session length, a request with that session's cookie is signed in as that user. */
  lemma CallbackThenContext(db: AuthDb, initial: Session, found: Option<UserWithId>, t: Tokens, info: UserInfo, now: int,
                            refresh: string -> Option<Tokens>, decls: nat -> Declarations)
    requires Valid(db) && initial.id in db.sessions && db.sessions[initial.id] == initial
    requires found.Some? ==> found.value.id in db.users
    requires initial.id != "" && initial.loggedOutAt.None? && SessionDurationMs(t.expiresIn) > 0
    ensures var r := Callback(db, initial, found, t, info, now);
      r.Ok? &&
      CreateContext(r.value.0, Some(initial.id), now, refresh, decls)
        == Ok(ContextOutcome(r.value.0, Some(UserView(r.value.0, r.value.1.userId.value, decls)), false))
  {
    CallbackSignsIn(db, initial, found, t, info, now);
    var r := Callback(db, initial, found, t, info, now).value;
    assert r.0.sessions[initial.id].userId.value in r.0.users;
    assert r.0.sessions[initial.id].userId.value != 0;
  }

  /** A returning user whose `about` is null is always written again, since `undefined !== null`. */
  lemma NullAboutAlwaysRewrites(db: AuthDb, user: UserWithId, info: UserInfo, now: int)
    requires user.id in db.users && user.about.None?
    ensures UpdateUser(db, ReturningUserPatch(user, info), now).value.users[user.id].updatedAt == now
  {
  }
}
