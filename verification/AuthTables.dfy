/** The backend's session tables and handlers, each handler one atomic step.

    A refresh token stands for its own hash, and a password for its own hash; both are taken to be
    collision free. A password is the string of its bytes. Times are milliseconds, expiry times of refresh tokens are seconds. */
module AuthTables {
  import opened Basics

  datatype Reason = NoReason | Replaced | Rotated | Compromised | LoggedOut | Removed | PasswordChanged | AccountDeleted

  datatype User = User(password: string, deleted: bool, validAfter: nat)
  datatype Device = Device(validAfter: nat, active: bool)
  datatype Token = Token(user: string, device: string, expiresAt: nat, revoked: bool, reason: Reason)

  datatype Db = Db(users: map<string, User>, devices: map<(string, string), Device>, tokens: map<string, Token>)

  /** The claims of a decoded access token. */
  datatype Claims = Claims(user: string, device: string, iat: nat)

  datatype Reply =
    | Session(access: Claims, refresh: string)
    | Done
    | InvalidCredentials
    | RefreshRefused         // invalid, expired, or revoked for another reason than rotation
    | ReuseDetected          // a rotated token came back: all sessions of its user are revoked
    | DoubleSpend            // the token was consumed between the lookup and the update
    | DeviceUnauthorized
    | Unauthenticated        // refused by the middleware
    | UserNotFound
    | BadRequest
    | ServerFault            // a violated UNIQUE constraint

  // ---------- Statements ----------

  /** `revoked = 1, revoked_reason = CASE WHEN revoked_reason = '' THEN ? ELSE revoked_reason END`. */
  function Revoke(t: Token, reason: Reason): Token {
    t.(revoked := true, reason := if t.reason.NoReason? then reason else t.reason)
  }

  /** Revokes the device's unrevoked tokens, keeping a reason that is already there. */
  function ReplaceDeviceTokens(tokens: map<string, Token>, user: string, device: string, reason: Reason): map<string, Token> {
    map h | h in tokens ::
      if tokens[h].user == user && tokens[h].device == device && !tokens[h].revoked then Revoke(tokens[h], reason) else tokens[h]
  }

  /** Revokes the device's unrevoked tokens, overwriting the reason. */
  function RevokeDeviceTokens(tokens: map<string, Token>, user: string, device: string, reason: Reason): map<string, Token> {
    map h | h in tokens ::
      if tokens[h].user == user && tokens[h].device == device && !tokens[h].revoked
      then tokens[h].(revoked := true, reason := reason) else tokens[h]
  }

  function RevokeUserTokens(tokens: map<string, Token>, user: string, reason: Reason): map<string, Token> {
    map h | h in tokens :: if tokens[h].user == user then Revoke(tokens[h], reason) else tokens[h]
  }

  function DeactivateUserDevices(devices: map<(string, string), Device>, user: string, now: nat): map<(string, string), Device> {
    map k | k in devices :: if k.0 == user then Device(Max(devices[k].validAfter, now), false) else devices[k]
  }

  function DeactivateDevice(devices: map<(string, string), Device>, user: string, device: string, now: nat): map<(string, string), Device> {
    if (user, device) in devices
    then devices[(user, device) := Device(Max(devices[(user, device)].validAfter, now), false)]
    else devices
  }

  function RaiseUserCutoff(users: map<string, User>, user: string, now: nat): map<string, User> {
    if user in users then users[user := users[user].(validAfter := Max(users[user].validAfter, now))] else users
  }

  /** `revoke_all_user_device_sessions`. */
  function RevokeAll(db: Db, user: string, now: nat, reason: Reason): Db {
    db.(tokens := RevokeUserTokens(db.tokens, user, reason), devices := DeactivateUserDevices(db.devices, user, now))
  }

  // ---------- Handlers ----------

  const TTL := 2_592_000

  predicate LiveUser(db: Db, user: string) {
    user in db.users && !db.users[user].deleted
  }

  /** `row` is what the credential lookup returned; a deleted user is never returned. */
  function Login(db: Db, row: Option<string>, password: string, device: string, issued: string, now: nat): (Db, Reply) {
    if row.None? || !LiveUser(db, row.value) || db.users[row.value].password != password then (db, InvalidCredentials)
    else if issued in db.tokens then (db, ServerFault)
    else
      var user := row.value;
      var cutoff := if (user, device) in db.devices then Max(db.devices[(user, device)].validAfter, now) else now;
      (db.(tokens := ReplaceDeviceTokens(db.tokens, user, device, Replaced)[issued := Token(user, device, now / 1000 + TTL, false, NoReason)],
           devices := db.devices[(user, device) := Device(cutoff, true)]),
       Session(Claims(user, device, cutoff), issued))
  }

  predicate Redeemable(db: Db, token: string, device: string, now: nat) {
    token in db.tokens && db.tokens[token].device == device && !db.tokens[token].revoked && db.tokens[token].expiresAt > now / 1000
  }

  /** The branch of `refresh` for a token that is not redeemable. */
  function RefuseRefresh(db: Db, token: string, now: nat): (Db, Reply) {
    if token in db.tokens && db.tokens[token].revoked && db.tokens[token].reason.Rotated? then
      var user := db.tokens[token].user;
      (RevokeAll(db.(users := RaiseUserCutoff(db.users, user, now)), user, now, Compromised), ReuseDetected)
    else (db, RefreshRefused)
  }

  function Refresh(db: Db, token: string, device: string, issued: string, now: nat): (Db, Reply) {
    if !Redeemable(db, token, device, now) then RefuseRefresh(db, token, now)
    else
      var t := db.tokens[token];
      var consumed := if t.device == device && !t.revoked then 1 else 0;
      if consumed != 1 then
        (RevokeAll(db.(users := RaiseUserCutoff(db.users, t.user, now)), t.user, now, Compromised), DoubleSpend)
      else if (t.user, device) !in db.devices then (db, DeviceUnauthorized)
      else
        var row := db.devices[(t.user, device)];
        if !row.active || now < row.validAfter then (db, DeviceUnauthorized)
        else if issued in db.tokens then (db, ServerFault)
        else
          (db.(tokens := db.tokens[token := t.(revoked := true, reason := Rotated)]
                                  [issued := Token(t.user, device, now / 1000 + TTL, false, NoReason)],
               devices := db.devices[(t.user, device) := Device(Max(row.validAfter, now), true)]),
           Session(Claims(t.user, device, now), issued))
  }

  /** `logout` for the caller's own device, `remove_device` for another one. */
  function DropDevice(db: Db, user: string, device: string, reason: Reason, now: nat): Db {
    db.(tokens := RevokeDeviceTokens(db.tokens, user, device, reason), devices := DeactivateDevice(db.devices, user, device, now))
  }

  function ChangePassword(db: Db, user: string, oldPassword: string, newPassword: string, now: nat): (Db, Reply) {
    if |newPassword| < 8 then (db, BadRequest)
    else if !LiveUser(db, user) then (db, UserNotFound)
    else if db.users[user].password != oldPassword then (db, InvalidCredentials)
    else
      var users := db.users[user := db.users[user].(password := newPassword, validAfter := Max(db.users[user].validAfter, now))];
      (RevokeAll(db.(users := users), user, now, PasswordChanged), Done)
  }

  function DeleteAccount(db: Db, user: string, now: nat): Db {
    var users := if user in db.users
                 then db.users[user := db.users[user].(deleted := true, validAfter := Max(db.users[user].validAfter, now))]
                 else db.users;
    RevokeAll(db.(users := users), user, now, AccountDeleted)
  }

  /** The middleware's test of a decoded access token. */
  predicate Accepts(db: Db, c: Claims) {
    && LiveUser(db, c.user)
    && (c.user, c.device) in db.devices && db.devices[(c.user, c.device)].active
    && c.iat >= db.users[c.user].validAfter
    && c.iat >= db.devices[(c.user, c.device)].validAfter
  }

  // ---------- Requests ----------

  datatype Request =
    | RegisterUser(id: string, password: string)
    | LoginRequest(row: Option<string>, password: string, device: string)
    | RefreshRequest(token: string, device: string)
    | LogoutRequest(claims: Claims)
    | RemoveDeviceRequest(claims: Claims, target: string)
    | ChangePasswordRequest(claims: Claims, oldPassword: string, newPassword: string)
    | DeleteAccountRequest(claims: Claims)

  /** One request, served atomically at time `now`; `issued` is the refresh token it may issue. */
  function Handle(db: Db, r: Request, issued: string, now: nat): (Db, Reply) {
    match r
    case RegisterUser(id, password) =>
      if id in db.users then (db, ServerFault) else (db.(users := db.users[id := User(password, false, 0)]), Done)
    case LoginRequest(row, password, device) => Login(db, row, password, device, issued, now)
    case RefreshRequest(token, device) => Refresh(db, token, device, issued, now)
    case LogoutRequest(c) =>
      if Accepts(db, c) then (DropDevice(db, c.user, c.device, LoggedOut, now), Done) else (db, Unauthenticated)
    case RemoveDeviceRequest(c, target) =>
      if Accepts(db, c) then (DropDevice(db, c.user, target, Removed, now), Done) else (db, Unauthenticated)
    case ChangePasswordRequest(c, oldPassword, newPassword) =>
      if Accepts(db, c) then ChangePassword(db, c.user, oldPassword, newPassword, now) else (db, Unauthenticated)
    case DeleteAccountRequest(c) =>
      if Accepts(db, c) then (DeleteAccount(db, c.user, now), Done) else (db, Unauthenticated)
  }

  // ---------- Revocation, row by row ----------

  /** All sessions of a user are revoked: each of the user's tokens is revoked and keeps the reason it has;
      each of the user's devices is deactivated, with the later of its cutoff and now; nothing else changes. */
  ghost predicate AllRevoked(db: Db, after: Db, user: string, now: nat, reason: Reason) {
    && after.users == db.users && after.tokens.Keys == db.tokens.Keys && after.devices.Keys == db.devices.Keys
    && (forall h :: h in db.tokens ==>
          var t, u := db.tokens[h], after.tokens[h];
          if t.user != user then u == t
          else u.revoked && u.(revoked := t.revoked, reason := t.reason) == t && u.reason == if t.reason.NoReason? then reason else t.reason)
    && (forall k :: k in db.devices ==>
          var d, e := db.devices[k], after.devices[k];
          if k.0 != user then e == d
          else !e.active && e.validAfter >= d.validAfter && e.validAfter >= now && e.validAfter in {d.validAfter, now})
  }

  lemma RevokeAllRows(db: Db, user: string, now: nat, reason: Reason)
    ensures AllRevoked(db, RevokeAll(db, user, now, reason), user, now, reason)
  {
  }

  /** A device is dropped: each of its unrevoked tokens is revoked for the reason; the device, if there is
      one, is deactivated, with the later of its cutoff and now; nothing else changes. */
  ghost predicate DeviceDropped(db: Db, after: Db, user: string, device: string, reason: Reason, now: nat) {
    && after.users == db.users && after.tokens.Keys == db.tokens.Keys && after.devices.Keys == db.devices.Keys
    && (forall h :: h in db.tokens ==>
          var t := db.tokens[h];
          after.tokens[h] == if t.user == user && t.device == device && !t.revoked
                             then Token(user, device, t.expiresAt, true, reason) else t)
    && (forall k :: k in db.devices ==>
          var d, e := db.devices[k], after.devices[k];
          if k != (user, device) then e == d
          else !e.active && e.validAfter >= d.validAfter && e.validAfter >= now && e.validAfter in {d.validAfter, now})
  }

  lemma DropRows(db: Db, user: string, device: string, reason: Reason, now: nat)
    ensures DeviceDropped(db, DropDevice(db, user, device, reason, now), user, device, reason, now)
  {
  }

  // ---------- The invariant ----------

  /** A reason is there exactly when the token is revoked. */
  ghost predicate ReasonsFit(db: Db) {
    forall h :: h in db.tokens ==> (db.tokens[h].reason.NoReason? <==> !db.tokens[h].revoked)
  }

  /** Every token has its device row, and an unrevoked one an active device. */
  ghost predicate DevicesFit(db: Db) {
    forall h :: h in db.tokens ==>
      var t := db.tokens[h];
      (t.user, t.device) in db.devices && (!t.revoked ==> db.devices[(t.user, t.device)].active)
  }

  /** At most one unrevoked token per user and device. */
  ghost predicate OneLiveToken(db: Db) {
    forall h, g ::
      (h in db.tokens && g in db.tokens && !db.tokens[h].revoked && !db.tokens[g].revoked
       && db.tokens[h].user == db.tokens[g].user && db.tokens[h].device == db.tokens[g].device)
      ==> h == g
  }

  /** Each device belongs to a user, its cutoff is at least the user's, and no cutoff lies in the future. */
  ghost predicate CutoffsFit(db: Db, clock: nat) {
    && (forall u :: u in db.users ==> db.users[u].validAfter <= clock)
    && (forall k :: k in db.devices ==>
          k.0 in db.users && db.users[k.0].validAfter <= db.devices[k].validAfter <= clock)
  }

  /** A deleted user has no unrevoked token. */
  ghost predicate DeletedHaveNone(db: Db) {
    forall h :: h in db.tokens && !db.tokens[h].revoked && db.tokens[h].user in db.users ==> !db.users[db.tokens[h].user].deleted
  }

  ghost predicate Inv(db: Db, clock: nat) {
    ReasonsFit(db) && DevicesFit(db) && OneLiveToken(db) && CutoffsFit(db, clock) && DeletedHaveNone(db)
  }

  lemma DeletedKept(db: Db, r: Request, issued: string, now: nat, clock: nat)
    requires DeletedHaveNone(db) && DevicesFit(db) && CutoffsFit(db, clock)
    ensures DeletedHaveNone(Handle(db, r, issued, now).0)
  {
  }

  lemma ReasonsKept(db: Db, r: Request, issued: string, now: nat)
    requires ReasonsFit(db)
    ensures ReasonsFit(Handle(db, r, issued, now).0)
  {
  }

  lemma DevicesKept(db: Db, r: Request, issued: string, now: nat)
    requires DevicesFit(db)
    ensures DevicesFit(Handle(db, r, issued, now).0)
  {
  }

  lemma OneLiveTokenKept(db: Db, r: Request, issued: string, now: nat)
    requires OneLiveToken(db)
    ensures OneLiveToken(Handle(db, r, issued, now).0)
  {
  }

  /** Revoking everything of a user, together with raising the user's own cutoff to the same time. */
  lemma CutoffsAfterRevokeAll(db: Db, users: map<string, User>, user: string, reason: Reason, now: nat, clock: nat)
    requires CutoffsFit(db, clock) && clock <= now
    requires users.Keys == db.users.Keys
    requires forall u :: u in users ==>
               users[u].validAfter == if u == user then Max(db.users[u].validAfter, now) else db.users[u].validAfter
    ensures CutoffsFit(RevokeAll(db.(users := users), user, now, reason), now)
  {
  }

  lemma CutoffsAfterRefresh(db: Db, token: string, device: string, issued: string, now: nat, clock: nat)
    requires CutoffsFit(db, clock) && DevicesFit(db) && clock <= now
    ensures CutoffsFit(Refresh(db, token, device, issued, now).0, now)
  {
    if token in db.tokens && !Redeemable(db, token, device, now) {
      CutoffsAfterRevokeAll(db, RaiseUserCutoff(db.users, db.tokens[token].user, now), db.tokens[token].user, Compromised, now, clock);
    }
  }

  lemma CutoffsAfterChangePassword(db: Db, user: string, oldPassword: string, newPassword: string, now: nat, clock: nat)
    requires CutoffsFit(db, clock) && clock <= now
    ensures CutoffsFit(ChangePassword(db, user, oldPassword, newPassword, now).0, now)
  {
    if user in db.users {
      var users := db.users[user := db.users[user].(password := newPassword, validAfter := Max(db.users[user].validAfter, now))];
      CutoffsAfterRevokeAll(db, users, user, PasswordChanged, now, clock);
    }
  }

  lemma CutoffsAfterDeleteAccount(db: Db, user: string, now: nat, clock: nat)
    requires CutoffsFit(db, clock) && clock <= now
    ensures CutoffsFit(DeleteAccount(db, user, now), now)
  {
    if user in db.users {
      var users := db.users[user := db.users[user].(deleted := true, validAfter := Max(db.users[user].validAfter, now))];
      CutoffsAfterRevokeAll(db, users, user, AccountDeleted, now, clock);
    }
  }

  lemma CutoffsAfterLogin(db: Db, row: Option<string>, password: string, device: string, issued: string, now: nat, clock: nat)
    requires CutoffsFit(db, clock) && clock <= now
    ensures CutoffsFit(Login(db, row, password, device, issued, now).0, now)
  {
  }

  lemma CutoffsAfterDrop(db: Db, user: string, device: string, reason: Reason, now: nat, clock: nat)
    requires CutoffsFit(db, clock) && clock <= now
    ensures CutoffsFit(DropDevice(db, user, device, reason, now), now)
  {
  }

  lemma CutoffsAfterRegister(db: Db, id: string, password: string, issued: string, now: nat, clock: nat)
    requires CutoffsFit(db, clock) && clock <= now
    ensures CutoffsFit(Handle(db, RegisterUser(id, password), issued, now).0, now)
  {
  }

  /** A request that the middleware refuses. */
  lemma CutoffsLater(db: Db, now: nat, clock: nat)
    requires CutoffsFit(db, clock) && clock <= now
    ensures CutoffsFit(db, now)
  {
  }

  lemma CutoffsAfterSession(db: Db, r: Request, c: Claims, issued: string, now: nat, clock: nat)
    requires CutoffsFit(db, clock) && clock <= now
    requires r.LogoutRequest? || r.RemoveDeviceRequest? || r.ChangePasswordRequest? || r.DeleteAccountRequest?
    requires r.claims == c
    ensures CutoffsFit(Handle(db, r, issued, now).0, now)
  {
    if !Accepts(db, c) {
      CutoffsLater(db, now, clock);
    } else if r.LogoutRequest? {
      CutoffsAfterDrop(db, c.user, c.device, LoggedOut, now, clock);
    } else if r.RemoveDeviceRequest? {
      CutoffsAfterDrop(db, c.user, r.target, Removed, now, clock);
    } else if r.ChangePasswordRequest? {
      CutoffsAfterChangePassword(db, c.user, r.oldPassword, r.newPassword, now, clock);
    } else {
      CutoffsAfterDeleteAccount(db, c.user, now, clock);
    }
  }

  lemma CutoffsKept(db: Db, r: Request, issued: string, now: nat, clock: nat)
    requires CutoffsFit(db, clock) && DevicesFit(db) && clock <= now
    ensures CutoffsFit(Handle(db, r, issued, now).0, now)
  {
    match r
    case RegisterUser(id, password) => CutoffsAfterRegister(db, id, password, issued, now, clock);
    case LoginRequest(row, password, device) => CutoffsAfterLogin(db, row, password, device, issued, now, clock);
    case RefreshRequest(token, device) => CutoffsAfterRefresh(db, token, device, issued, now, clock);
    case _ => CutoffsAfterSession(db, r, r.claims, issued, now, clock);
  }

  /** Every request keeps the invariant of the three tables. */
  lemma InvKept(db: Db, r: Request, issued: string, now: nat, clock: nat)
    requires Inv(db, clock) && clock <= now
    ensures Inv(Handle(db, r, issued, now).0, now)
  {
    ReasonsKept(db, r, issued, now);
    DevicesKept(db, r, issued, now);
    OneLiveTokenKept(db, r, issued, now);
    CutoffsKept(db, r, issued, now, clock);
    DeletedKept(db, r, issued, now, clock);
  }
}
