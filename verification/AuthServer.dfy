/** The session handlers as the backend runs them: one SQL statement after the other on three tables,
    committed or rolled back as a whole. */
module AuthServer {
  import opened Basics
  import opened AuthTables
  import opened AuthEffects

  class Backend {
    var users: map<string, User>
    var devices: map<(string, string), Device>
    var tokens: map<string, Token>

    constructor ()
      ensures View() == Db(map[], map[], map[])
    {
      users, devices, tokens := map[], map[], map[];
    }

    function View(): Db
      reads this
    {
      Db(users, devices, tokens)
    }

    /** Two updates: what they revoke, keep and raise, row by row, is `AllRevoked`. */
    method RevokeAllUserDeviceSessions(user: string, now: nat, reason: Reason)
      modifies `tokens, `devices
      ensures View() == RevokeAll(old(View()), user, now, reason) && AllRevoked(old(View()), View(), user, now, reason)
    {
      RevokeAllRows(View(), user, now, reason);
      tokens := RevokeUserTokens(tokens, user, reason);
      devices := DeactivateUserDevices(devices, user, now);
    }

    /** A session exactly for a user who is there, is not deleted, and has exactly this password, if the new
        hash is unused; otherwise nothing changes. */
    method HandleLogin(row: Option<string>, password: string, device: string, issued: string, now: nat) returns (r: Reply)
      modifies this
      ensures (View(), r) == Login(old(View()), row, password, device, issued, now)
      ensures r.InvalidCredentials? <==>
                row.None? || row.value !in old(users) || old(users)[row.value].deleted || old(users)[row.value].password != password
      ensures r.Session? || r.ServerFault? || r.InvalidCredentials?
      ensures r.ServerFault? ==> issued in old(tokens)
      ensures !r.Session? ==> View() == old(View())
      ensures r.Session? ==>
                && row.Some? && issued !in old(tokens) && SessionOpened(old(View()), View(), row.value, device, issued, now)
                && r == Session(Claims(row.value, device, devices[(row.value, device)].validAfter), issued)
    {
      LoginSucceedsIff(View(), row, password, device, issued, now);
      LoginRows(View(), row, password, device, issued, now);
      if row.None? || !LiveUser(View(), row.value) { return InvalidCredentials; }
      var user := row.value;
      if users[user].password != password { return InvalidCredentials; }

      var saved := tokens;
      tokens := ReplaceDeviceTokens(tokens, user, device, Replaced);
      if issued in tokens {
        tokens := saved;
        return ServerFault;
      }
      tokens := tokens[issued := Token(user, device, now / 1000 + TTL, false, NoReason)];
      if (user, device) in devices {
        devices := devices[(user, device) := Device(Max(devices[(user, device)].validAfter, now), true)];
      } else {
        devices := devices[(user, device) := Device(now, true)];
      }
      return Session(Claims(user, device, devices[(user, device)].validAfter), issued);
    }

    /** A new session spends the presented token; a token that was spent before raises its user's cutoff and
        revokes all the user's sessions; every other answer changes nothing. */
    method HandleRefresh(token: string, device: string, issued: string, now: nat) returns (r: Reply)
      modifies this
      ensures (View(), r) == Refresh(old(View()), token, device, issued, now)
      ensures r.Session? ==> old(Spendable(View(), token, device, now)) && SessionRotated(old(View()), View(), token, device, issued, now)
      ensures r.ReuseDetected? <==> old(Spent(View(), token))
      ensures r.ReuseDetected? ==>
                && CutoffRaised(old(View()), View(), old(tokens[token].user), now)
                && AllRevoked(old(View()).(users := users), View(), old(tokens[token].user), now, Compromised)
      ensures !r.Session? && !r.ReuseDetected? ==> View() == old(View())
    {
      RefreshRows(View(), token, device, issued, now);
      if !Redeemable(View(), token, device, now) {
        if token in tokens && tokens[token].revoked && tokens[token].reason.Rotated? {
          var compromised := tokens[token].user;
          users := RaiseUserCutoff(users, compromised, now);
          RevokeAllUserDeviceSessions(compromised, now, Compromised);
          return ReuseDetected;
        }
        return RefreshRefused;
      }
      var saved := tokens;
      var user := tokens[token].user;
      // The row that was looked up is the row the update consumes: no other request comes between, so
      // exactly one row is affected. The other case is the `DoubleSpend` branch of `Refresh`.
      tokens := tokens[token := tokens[token].(revoked := true, reason := Rotated)];
      if (user, device) !in devices || !devices[(user, device)].active || now < devices[(user, device)].validAfter {
        tokens := saved;
        return DeviceUnauthorized;
      }
      if issued in tokens {
        tokens := saved;
        return ServerFault;
      }
      tokens := tokens[issued := Token(user, device, now / 1000 + TTL, false, NoReason)];
      devices := devices[(user, device) := Device(Max(devices[(user, device)].validAfter, now), true)];
      return Session(Claims(user, device, now), issued);
    }

    /** `logout` and `remove_device`: what they revoke, keep and raise, row by row, is `DeviceDropped`. */
    method HandleDrop(user: string, device: string, reason: Reason, now: nat)
      modifies `tokens, `devices
      ensures View() == DropDevice(old(View()), user, device, reason, now) && DeviceDropped(old(View()), View(), user, device, reason, now)
    {
      DropRows(View(), user, device, reason, now);
      tokens := RevokeDeviceTokens(tokens, user, device, reason);
      devices := DeactivateDevice(devices, user, device, now);
    }

    /** Done exactly for a new password of at least eight characters and the right old one. */
    method HandleChangePassword(user: string, oldPassword: string, newPassword: string, now: nat) returns (r: Reply)
      modifies this
      ensures (View(), r) == ChangePassword(old(View()), user, oldPassword, newPassword, now)
      ensures r.Done? <==>
                |newPassword| >= 8 && user in old(users) && !old(users)[user].deleted && old(users)[user].password == oldPassword
      ensures r.Done? ==> PasswordChange(old(View()), View(), user, newPassword, now)
      ensures !r.Done? ==> View() == old(View())
    {
      ChangePasswordAnswers(View(), user, oldPassword, newPassword, now);
      if |newPassword| < 8 { return BadRequest; }
      if !LiveUser(View(), user) { return UserNotFound; }
      if users[user].password != oldPassword { return InvalidCredentials; }
      users := users[user := users[user].(password := newPassword, validAfter := Max(users[user].validAfter, now))];
      RevokeAllUserDeviceSessions(user, now, PasswordChanged);
      return Done;
    }

    method HandleDeleteAccount(user: string, now: nat)
      modifies this
      ensures View() == DeleteAccount(old(View()), user, now)
      ensures AllRevoked(old(View()).(users := users), View(), user, now, AccountDeleted)
      ensures user in old(users) ==> user in users && users[user].deleted && users[user].password == old(users)[user].password
    {
      DeleteAccountRows(View(), user, now);
      if user in users {
        users := users[user := users[user].(deleted := true, validAfter := Max(users[user].validAfter, now))];
      }
      RevokeAllUserDeviceSessions(user, now, AccountDeleted);
    }

    /** Serves a request later than everything before it: the invariant of the tables is kept. */
    method ServeInTime(req: Request, issued: string, now: nat, ghost clock: nat) returns (r: Reply)
      requires Inv(View(), clock) && clock <= now
      modifies this
      ensures (View(), r) == Handle(old(View()), req, issued, now)
      ensures Inv(View(), now)
    {
      InvKept(View(), req, issued, now, clock);
      r := Serve(req, issued, now);
    }

    /** Routes a request, behind the middleware where the route demands it. */
    method Serve(req: Request, issued: string, now: nat) returns (r: Reply)
      modifies this
      ensures (View(), r) == Handle(old(View()), req, issued, now)
    {
      match req
      case RegisterUser(id, password) =>
        if id in users {
          r := ServerFault;
        } else {
          users := users[id := User(password, false, 0)];
          r := Done;
        }
      case LoginRequest(row, password, device) => r := HandleLogin(row, password, device, issued, now);
      case RefreshRequest(token, device) => r := HandleRefresh(token, device, issued, now);
      case LogoutRequest(c) =>
        r := Unauthenticated;
        if Accepts(View(), c) {
          HandleDrop(c.user, c.device, LoggedOut, now);
          r := Done;
        }
      case RemoveDeviceRequest(c, target) =>
        r := Unauthenticated;
        if Accepts(View(), c) {
          HandleDrop(c.user, target, Removed, now);
          r := Done;
        }
      case ChangePasswordRequest(c, oldPassword, newPassword) =>
        r := Unauthenticated;
        if Accepts(View(), c) { r := HandleChangePassword(c.user, oldPassword, newPassword, now); }
      case DeleteAccountRequest(c) =>
        r := Unauthenticated;
        if Accepts(View(), c) {
          HandleDeleteAccount(c.user, now);
          r := Done;
        }
    }
  }
}
