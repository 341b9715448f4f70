// The authentication use cases as methods over the store: each performs the
// reads and writes of the source in the same order and is proved equal to the
// matching function of Auth. The identity provider's calls are parameters.
module AuthUseCases {
  import opened Wrappers
  import opened Auth
  import AuthStore

  /** `refreshSession(session)`. */
  method RefreshSession(store: AuthStore.AuthStore, s: Session, refresh: string -> Option<Tokens>, now: int)
    returns (r: Result<Session, AuthError>)
    requires store.Valid()
    modifies store
    ensures store.Valid()
    ensures var spec := Auth.RefreshSession(old(store.State()), s, refresh, now);
      && (r.Err? <==> spec.Err?)
      && (r.Ok? ==> (store.State(), r.value) == spec.value)
      && (r.Err? ==> r.error == spec.error && store.State() == old(store.State()))
  {
    if !Truthy(s.refreshToken) {
      return Err(NoRefreshToken);
    }
    var t := refresh(s.refreshToken.value);
    if t.None? {
      return Err(RefreshFailed);
    }
    var updated := Refreshed(s, t.value, now);
    var w := store.UpdateSession(updated, now);
    if w.Err? {
      return Err(w.error);
    }
    r := Ok(updated);
  }

  /**
   * `createContext` for a request whose `sessionId` cookie is `cookie`: the
   * current user, if any, and whether the cookie is cleared.
   */
  method CreateContext(store: AuthStore.AuthStore, cookie: Option<string>, now: int,
                       refresh: string -> Option<Tokens>, decls: nat -> Declarations)
    returns (r: Result<(Option<UserWithId>, bool), AuthError>)
    requires store.Valid()
    modifies store
    ensures store.Valid()
    ensures var spec := Auth.CreateContext(old(store.State()), cookie, now, refresh, decls);
      && (r.Ok? <==> spec.Ok?)
      && (r.Ok? ==> store.State() == spec.value.db && r.value == (spec.value.currentUser, spec.value.clearCookie))
      && (r.Err? ==> store.State() == old(store.State()))
  {
    if !Truthy(cookie) {
      return Ok((None, false));
    }
    var sessionId := cookie.value;
    var found := store.FindById(sessionId);
    if found.None? || !SignedIn(found.value) {
      return Ok((None, false));
    }
    var session := found.value;
    var isExpired := Expired(session, now);
    if isExpired && Truthy(session.refreshToken) {
      var refreshed := RefreshSession(store, session, refresh, now);
      if refreshed.Ok? {
        var currentUser := store.GetBySessionId(sessionId, now, decls);
        return Ok((currentUser, false));
      }
      // The row was just read, so this write cannot throw.
      var w := store.UpdateSession(session.(loggedOutAt := Some(now)), now);
      assert w.Ok?;
      return Ok((None, true));
    }
    if isExpired {
      return Ok((None, false));
    }
    var currentUser := store.GetBySessionId(sessionId, now, decls);
    r := Ok((currentUser, false));
  }

  /** `initiateLogout`: mark the session logged out, then ask the provider for the logout URL. */
  method InitiateLogout(store: AuthStore.AuthStore, sessionId: string, now: int, logoutUrl: Option<string> -> string)
    returns (r: Result<string, AuthError>)
    requires store.Valid()
    modifies store
    ensures store.Valid()
    ensures var spec := Auth.Logout(old(store.State()), sessionId, now, logoutUrl);
      && (r.Err? <==> spec.Err?)
      && (r.Ok? ==> (store.State(), r.value) == spec.value)
      && (r.Err? ==> store.State() == old(store.State()))
  {
    var found := store.FindById(sessionId);
    if found.None? {
      return Err(SessionNotFound);
    }
    var session := found.value;
    // The row was just read, so this write cannot throw.
    var w := store.UpdateSession(session.(loggedOutAt := Some(now)), now);
    assert w.Ok?;
    r := Ok(logoutUrl(session.idToken));
  }

  /**
   * `handleAuthCallback({code, state})`. `exchange` and `userInfo` are the
   * provider's token exchange and user-info calls. The ghost outputs name the
   * session the state selected and the user the lookups found, which the
   * source's queries leave unspecified among equal candidates.
   */
  method HandleAuthCallback(store: AuthStore.AuthStore, code: string, state: string, now: int,
                            exchange: string -> Tokens, userInfo: string -> UserInfo, decls: nat -> Declarations)
    returns (r: Result<Session, AuthError>, ghost initial: Session, ghost found: Option<UserWithId>)
    requires store.Valid()
    modifies store
    ensures store.Valid()
    ensures r.Err? <==> !exists k | k in old(store.sessions) :: old(store.sessions)[k].state == state
    ensures r.Err? ==> r.error == UnknownState && store.State() == old(store.State())
    ensures r.Ok? ==>
      && initial.id in old(store.sessions) && old(store.sessions)[initial.id] == initial && initial.state == state
      && var info := userInfo(exchange(code).accessToken);
         var db := old(store.State());
         && (LookupBySub(db, info.sub, found, decls) || (LookupBySub(db, info.sub, None, decls) && LookupByEmail(db, info.email, found, decls)))
         && Callback(db, initial, found, exchange(code), info, now) == Ok((store.State(), r.value))
         && r.value.userId.value in store.users
         && store.users[r.value.userId.value].email == info.email
         && store.users[r.value.userId.value].sub == Some(info.sub)
         && store.sessions[initial.id] == r.value.(updatedAt := now)
  {
    ghost var db := store.State();
    var init := store.FindByState(state);
    if init.None? {
      r, initial, found := Err(UnknownState), Session("", "", None, None, None, None, None, None, None, 0, 0, None), None;
      return;
    }
    initial := init.value;
    var tokens := exchange(code);
    var info := userInfo(tokens.accessToken);
    var user := store.GetBySub(info.sub, decls);
    if user.None? {
      user := store.GetByEmail(info.email, decls);
    }
    found := user;
    CallbackSignsIn(db, initial, found, tokens, info, now);
    var userId: nat;
    if user.None? {
      userId := store.AddUser(NewUserFrom(info), now);
    } else {
      userId := user.value.id;
      // The user was just found, so this write cannot throw.
      var w := store.UpdateUser(ReturningUserPatch(user.value, info), now);
      assert w.Ok?;
    }
    var updated := Authenticated(init.value, userId, info, tokens, now);
    // The session was just found and user writes leave sessions alone, so this write cannot throw.
    var w := store.UpdateSession(updated, now);
    assert w.Ok?;
    r := Ok(updated);
  }
}
