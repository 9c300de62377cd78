/** What each request to the session handlers is answered, and what it does to the rows of the three tables. */
module AuthEffects {
  import opened Basics
  import opened AuthTables

  /** The row names a user who is there, is not deleted, and has exactly this password. */
  predicate RightPassword(db: Db, row: Option<string>, password: string) {
    row.Some? && row.value in db.users && !db.users[row.value].deleted && db.users[row.value].password == password
  }

  /** What a device's row is after a call that touches it at `now`: active or not, with the later of its cutoff,
      if it had one, and `now`. */
  ghost predicate Touched(db: Db, after: Db, user: string, device: string, active: bool, now: nat) {
    && (user, device) in after.devices
    && var e := after.devices[(user, device)];
       && e.active == active
       && ((user, device) !in db.devices ==> e.validAfter == now)
       && ((user, device) in db.devices ==>
             var d := db.devices[(user, device)];
             e.validAfter >= d.validAfter && e.validAfter >= now && e.validAfter in {d.validAfter, now})
  }

  /** Only this device's row may be another one, or new. */
  ghost predicate OtherDevicesKept(db: Db, after: Db, user: string, device: string) {
    && after.devices.Keys == db.devices.Keys + {(user, device)}
    && forall k :: k in db.devices && k != (user, device) ==> after.devices[k] == db.devices[k]
  }

  /** The new token: valid for thirty days. */
  predicate Issued(after: Db, issued: string, user: string, device: string, now: nat) {
    issued in after.tokens && after.tokens[issued] == Token(user, device, now / 1000 + 2_592_000, false, NoReason)
  }

  // ---------- Login ----------

  /** A login has replaced whatever session the device had: the device's unrevoked tokens are revoked, the new
      one is there, the device is active, and nothing else has changed. */
  ghost predicate SessionOpened(db: Db, after: Db, user: string, device: string, issued: string, now: nat) {
    && after.users == db.users
    && after.tokens.Keys == db.tokens.Keys + {issued} && Issued(after, issued, user, device, now)
    && (forall h :: h in db.tokens ==>
          var t := db.tokens[h];
          after.tokens[h] == if t.user == user && t.device == device && !t.revoked
                             then Token(user, device, t.expiresAt, true, if t.reason.NoReason? then Replaced else t.reason) else t)
    && OtherDevicesKept(db, after, user, device) && Touched(db, after, user, device, true, now)
  }

  /** A login succeeds if and only if the row names a user who is there, is not deleted, and has exactly this
      password, and the hash of the new token is unused. It is refused if and only if one of the first three
      fails. Unless it succeeds nothing changes. */
  lemma LoginSucceedsIff(db: Db, row: Option<string>, password: string, device: string, issued: string, now: nat)
    ensures var reply := Login(db, row, password, device, issued, now).1;
            && (reply.Session? <==> RightPassword(db, row, password) && issued !in db.tokens)
            && (reply.InvalidCredentials? <==> !RightPassword(db, row, password))
            && (reply.ServerFault? <==> RightPassword(db, row, password) && issued in db.tokens)
  {
  }

  lemma LoginRows(db: Db, row: Option<string>, password: string, device: string, issued: string, now: nat)
    ensures var (after, reply) := Login(db, row, password, device, issued, now);
            && (!reply.Session? ==> after == db)
            && (reply.Session? ==>
                  && row.Some? && SessionOpened(db, after, row.value, device, issued, now)
                  && reply == Session(Claims(row.value, device, after.devices[(row.value, device)].validAfter), issued))
  {
  }

  // ---------- Refresh ----------

  /** A refresh has spent the presented token: it is revoked as rotated, the new one is there, the device is
      active, and nothing else has changed. */
  ghost predicate SessionRotated(db: Db, after: Db, token: string, device: string, issued: string, now: nat)
    requires token in db.tokens
  {
    var t := db.tokens[token];
    && after.users == db.users
    && after.tokens.Keys == db.tokens.Keys + {issued} && Issued(after, issued, t.user, device, now)
    && (forall h :: h in db.tokens ==> after.tokens[h] == if h == token then Token(t.user, t.device, t.expiresAt, true, Rotated) else db.tokens[h])
    && OtherDevicesKept(db, after, t.user, device) && Touched(db, after, t.user, device, true, now)
  }

  /** The users after all sessions of one were revoked together with the user's own cutoff. */
  ghost predicate CutoffRaised(db: Db, after: Db, user: string, now: nat) {
    && after.users.Keys == db.users.Keys
    && (forall u :: u in db.users && u != user ==> after.users[u] == db.users[u])
    && (user in db.users ==>
          var was, later := db.users[user], after.users[user];
          && later.(validAfter := was.validAfter) == was
          && later.validAfter >= was.validAfter && later.validAfter >= now && later.validAfter in {was.validAfter, now})
  }

  /** Known, of this device, not revoked, and not expired. */
  predicate Spendable(db: Db, token: string, device: string, now: nat) {
    token in db.tokens && var t := db.tokens[token]; t.device == device && !t.revoked && t.expiresAt > now / 1000
  }

  /** Known and already rotated. */
  predicate Spent(db: Db, token: string) {
    token in db.tokens && db.tokens[token].revoked && db.tokens[token].reason == Rotated
  }

  /** What a refresh is answered where the invariant of the tables holds. */
  lemma RefreshAnswers(db: Db, token: string, device: string, issued: string, now: nat, clock: nat)
    requires Inv(db, clock) && clock <= now
    ensures var reply := Refresh(db, token, device, issued, now).1;
            && (reply.Session? <==> Spendable(db, token, device, now) && issued !in db.tokens)
            && (reply.ServerFault? <==> Spendable(db, token, device, now) && issued in db.tokens)
            && (reply.ReuseDetected? <==> Spent(db, token))
            && (reply.RefreshRefused? <==> !Spendable(db, token, device, now) && !Spent(db, token))
  {
  }

  /** What a refresh does to the rows, in any tables. */
  lemma RefreshRows(db: Db, token: string, device: string, issued: string, now: nat)
    ensures var (after, reply) := Refresh(db, token, device, issued, now);
            && (reply.Session? ==>
                  && token in db.tokens && SessionRotated(db, after, token, device, issued, now)
                  && reply == Session(Claims(db.tokens[token].user, device, now), issued))
            && (reply.ReuseDetected? ==>
                  && token in db.tokens && CutoffRaised(db, after, db.tokens[token].user, now)
                  && AllRevoked(db.(users := after.users), after, db.tokens[token].user, now, Compromised))
            && (reply.ServerFault? || reply.RefreshRefused? || reply.DeviceUnauthorized? ==> after == db)
  {
    if !Redeemable(db, token, device, now) {
      RefusedRows(db, token, now);
    } else {
      SpentRows(db, token, device, issued, now);
    }
  }

  lemma RefusedRows(db: Db, token: string, now: nat)
    ensures var (after, reply) := RefuseRefresh(db, token, now);
            && (reply.ReuseDetected? || (reply.RefreshRefused? && after == db))
            && (reply.ReuseDetected? ==>
                  && token in db.tokens && CutoffRaised(db, after, db.tokens[token].user, now)
                  && AllRevoked(db.(users := after.users), after, db.tokens[token].user, now, Compromised))
  {
    if token in db.tokens {
      var user := db.tokens[token].user;
      RevokeAllRows(db.(users := RaiseUserCutoff(db.users, user, now)), user, now, Compromised);
    }
  }

  lemma SpentRows(db: Db, token: string, device: string, issued: string, now: nat)
    requires Redeemable(db, token, device, now)
    ensures var (after, reply) := Refresh(db, token, device, issued, now);
            && !reply.ReuseDetected?
            && (reply.Session? ==>
                  && SessionRotated(db, after, token, device, issued, now)
                  && reply == Session(Claims(db.tokens[token].user, device, now), issued))
            && (!reply.Session? ==> after == db)
  {
  }

  // ---------- Passwords and accounts ----------

  /** The answers to a change of password, each with its exact condition; only a success changes anything. */
  lemma ChangePasswordAnswers(db: Db, user: string, oldPassword: string, newPassword: string, now: nat)
    ensures var (after, reply) := ChangePassword(db, user, oldPassword, newPassword, now);
            var live := user in db.users && !db.users[user].deleted;
            && (reply.BadRequest? <==> |newPassword| < 8)
            && (reply.UserNotFound? <==> |newPassword| >= 8 && !live)
            && (reply.InvalidCredentials? <==> |newPassword| >= 8 && live && db.users[user].password != oldPassword)
            && (reply.Done? <==> |newPassword| >= 8 && live && db.users[user].password == oldPassword)
            && (!reply.Done? ==> after == db)
            && (reply.Done? ==> PasswordChange(db, after, user, newPassword, now))
  {
    if user in db.users {
      var users := db.users[user := db.users[user].(password := newPassword, validAfter := Max(db.users[user].validAfter, now))];
      RevokeAllRows(db.(users := users), user, now, PasswordChanged);
    }
  }

  /** The user has the new password and a cutoff at the time of the change, and no session. */
  ghost predicate PasswordChange(db: Db, after: Db, user: string, newPassword: string, now: nat) {
    && user in db.users && user in after.users && after.users[user].password == newPassword
    && CutoffRaised(db, after.(users := after.users[user := after.users[user].(password := db.users[user].password)]), user, now)
    && AllRevoked(db.(users := after.users), after, user, now, PasswordChanged)
  }

  /** Deleting an account marks the user deleted, who keeps the password and gets a cutoff at that time, and
      revokes all sessions. */
  lemma DeleteAccountRows(db: Db, user: string, now: nat)
    ensures var after := DeleteAccount(db, user, now);
            && (user in db.users ==>
                  && user in after.users && after.users[user].deleted
                  && CutoffRaised(db, after.(users := after.users[user := after.users[user].(deleted := db.users[user].deleted)]), user, now))
            && (user !in db.users ==> after.users == db.users)
            && AllRevoked(db.(users := after.users), after, user, now, AccountDeleted)
  {
    RevokeAllRows(db.(users := DeleteAccount(db, user, now).users), user, now, AccountDeleted);
  }

  // ---------- Behind the middleware ----------

  /** A token is let through exactly while its user is there and not deleted, its device is there and active,
      and it was issued at or after both their cutoffs. */
  predicate LetThrough(db: Db, c: Claims) {
    && c.user in db.users && !db.users[c.user].deleted && db.users[c.user].validAfter <= c.iat
    && (c.user, c.device) in db.devices && db.devices[(c.user, c.device)].active && db.devices[(c.user, c.device)].validAfter <= c.iat
  }

  /** A request behind the middleware is turned away exactly when its access token is not let through; then
      nothing changes. Else it does its work, which for logout and removal is dropping one device. */
  lemma ProtectedAnswers(db: Db, r: Request, issued: string, now: nat)
    requires r.LogoutRequest? || r.RemoveDeviceRequest? || r.ChangePasswordRequest? || r.DeleteAccountRequest?
    ensures var (after, reply) := Handle(db, r, issued, now);
            && (reply.Unauthenticated? <==> !LetThrough(db, r.claims))
            && (reply.Unauthenticated? ==> after == db)
            && (LetThrough(db, r.claims) && r.LogoutRequest? ==>
                  reply.Done? && DeviceDropped(db, after, r.claims.user, r.claims.device, LoggedOut, now))
            && (LetThrough(db, r.claims) && r.RemoveDeviceRequest? ==>
                  reply.Done? && DeviceDropped(db, after, r.claims.user, r.target, Removed, now))
            && (LetThrough(db, r.claims) && r.ChangePasswordRequest? ==>
                  (after, reply) == ChangePassword(db, r.claims.user, r.oldPassword, r.newPassword, now))
            && (LetThrough(db, r.claims) && r.DeleteAccountRequest? ==>
                  reply.Done? && after == DeleteAccount(db, r.claims.user, now))
  {
    if r.LogoutRequest? { DropRows(db, r.claims.user, r.claims.device, LoggedOut, now); }
    if r.RemoveDeviceRequest? { DropRows(db, r.claims.user, r.target, Removed, now); }
  }

  /** Registering adds a user under a new id and changes nothing else. */
  lemma RegisterAnswers(db: Db, id: string, password: string, issued: string, now: nat)
    ensures var (after, reply) := Handle(db, RegisterUser(id, password), issued, now);
            && (reply.Done? <==> id !in db.users) && (reply.ServerFault? <==> id in db.users)
            && after == if id in db.users then db else Db(db.users[id := User(password, false, 0)], db.devices, db.tokens)
  {
  }
}
