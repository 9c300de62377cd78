/** What holds along every run of the session handlers. */
module AuthRuns {
  import opened Basics
  import opened AuthTables
  import opened AuthEffects

  datatype Call = Call(request: Request, issued: string, now: nat)

  function Serve(db: Db, c: Call): (Db, Reply) {
    Handle(db, c.request, c.issued, c.now)
  }

  /** The tables after a run. */
  function Run(db: Db, calls: seq<Call>): Db
    decreases |calls|
  {
    if calls == [] then db else Serve(Run(db, calls[..|calls| - 1]), calls[|calls| - 1]).0
  }

  /** The reply to call `i` of a run. */
  function ReplyTo(db: Db, calls: seq<Call>, i: nat): Reply
    requires i < |calls|
  {
    Serve(Run(db, calls[..i]), calls[i]).1
  }

  const NO_USERS := Db(map[], map[], map[])

  /** The clock never runs backwards. */
  ghost predicate Timely(calls: seq<Call>) {
    forall i, j :: 0 <= i <= j < |calls| ==> calls[i].now <= calls[j].now
  }

  function LastTime(calls: seq<Call>): nat {
    if calls == [] then 0 else calls[|calls| - 1].now
  }

  /** The state after `i` calls of a run. */
  function StateAt(calls: seq<Call>, i: nat): Db
    requires i <= |calls|
  {
    Run(NO_USERS, calls[..i])
  }

  lemma StateNext(calls: seq<Call>, i: nat)
    requires i < |calls|
    ensures StateAt(calls, i + 1) == Serve(StateAt(calls, i), calls[i]).0
    ensures ReplyTo(NO_USERS, calls, i) == Serve(StateAt(calls, i), calls[i]).1
  {
    assert calls[..i + 1][..i] == calls[..i];
  }

  // ---------- The tables ----------

  /** In every reachable state: at most one unrevoked refresh token per user and device, and none for
      an inactive device or a deleted user; a device row for every token; a reason exactly on revoked
      tokens; device cutoffs at least their user's, none in the future. */
  lemma {:induction false} ReachableInv(calls: seq<Call>)
    requires Timely(calls)
    ensures Inv(Run(NO_USERS, calls), LastTime(calls))
    decreases |calls|
  {
    if calls != [] {
      var init, last := calls[..|calls| - 1], calls[|calls| - 1];
      ReachableInv(init);
      InvKept(Run(NO_USERS, init), last.request, last.issued, last.now, LastTime(init));
    }
  }

  /** With atomic handlers and a clock that does not run backwards, the double-spend branch and the
      missing, inactive or newer device branches of `refresh` are never taken. */
  lemma DeadBranches(calls: seq<Call>, token: string, device: string, issued: string, now: nat)
    requires Timely(calls) && LastTime(calls) <= now
    ensures Refresh(Run(NO_USERS, calls), token, device, issued, now).1 !in {DoubleSpend, DeviceUnauthorized}
  {
    ReachableInv(calls);
  }

  /** In every reachable state, a refresh succeeds exactly on the device's unrevoked, unexpired token, when the
      new token's hash is unused. A token that was spent before is taken for reuse, and any other is refused;
      those are all the answers. */
  lemma RefreshSucceedsIff(calls: seq<Call>, token: string, device: string, issued: string, now: nat)
    requires Timely(calls) && LastTime(calls) <= now
    ensures var db := Run(NO_USERS, calls);
            var reply := Refresh(db, token, device, issued, now).1;
            && (reply.Session? <==> Spendable(db, token, device, now) && issued !in db.tokens)
            && (reply.ServerFault? <==> Spendable(db, token, device, now) && issued in db.tokens)
            && (reply.ReuseDetected? <==> Spent(db, token))
            && (reply.RefreshRefused? <==> !Spendable(db, token, device, now) && !Spent(db, token))
  {
    ReachableInv(calls);
    RefreshAnswers(Run(NO_USERS, calls), token, device, issued, now, LastTime(calls));
  }

  // ---------- Passwords ----------

  /** A successful change of the user's password. */
  predicate Changes(reply: Reply, c: Call, user: string) {
    c.request.ChangePasswordRequest? && reply.Done? && c.request.claims.user == user
  }

  lemma PasswordStays(db: Db, c: Call, user: string)
    requires user in db.users && !Changes(Serve(db, c).1, c, user)
    ensures user in Serve(db, c).0.users && Serve(db, c).0.users[user].password == db.users[user].password
  {
  }

  lemma {:induction false} PasswordBetween(calls: seq<Call>, i: nat, j: nat, user: string)
    requires i <= j <= |calls| && user in StateAt(calls, i).users
    requires forall n :: i <= n < j ==> !Changes(ReplyTo(NO_USERS, calls, n), calls[n], user)
    ensures user in StateAt(calls, j).users && StateAt(calls, j).users[user].password == StateAt(calls, i).users[user].password
    decreases j - i
  {
    if i < j {
      PasswordBetween(calls, i, j - 1, user);
      StateNext(calls, j - 1);
      assert !Changes(ReplyTo(NO_USERS, calls, j - 1), calls[j - 1], user);
      PasswordStays(StateAt(calls, j - 1), calls[j - 1], user);
    }
  }

  /** After a successful change of password at step `i`, and until the next one: as long as the account is not
      deleted, a login of the user with the new password gets a session, if the new token's hash is unused; with
      any other password, the old one included, it is refused. */
  lemma NewPasswordSignsIn(calls: seq<Call>, i: nat, j: nat, user: string, password: string, device: string, issued: string, now: nat)
    requires i < j <= |calls| && Changes(ReplyTo(NO_USERS, calls, i), calls[i], user)
    requires forall n :: i < n < j ==> !Changes(ReplyTo(NO_USERS, calls, n), calls[n], user)
    ensures var db := StateAt(calls, j);
            var reply := Login(db, Some(user), password, device, issued, now).1;
            && user in db.users
            && (reply.InvalidCredentials? <==> db.users[user].deleted || password != calls[i].request.newPassword)
            && (reply.Session? <==> !db.users[user].deleted && password == calls[i].request.newPassword && issued !in db.tokens)
  {
    var c, db := calls[i], StateAt(calls, i);
    StateNext(calls, i);
    ChangePasswordAnswers(db, user, c.request.oldPassword, c.request.newPassword, c.now);
    PasswordBetween(calls, i + 1, j, user);
    LoginSucceedsIff(StateAt(calls, j), Some(user), password, device, issued, now);
  }

  // ---------- Tokens ----------

  /** A token keeps its user, device and expiry; once revoked it stays revoked, for the same reason. */
  ghost predicate TokensFrozen(db: Db, later: Db) {
    forall h :: h in db.tokens ==>
      && h in later.tokens
      && later.tokens[h].user == db.tokens[h].user && later.tokens[h].device == db.tokens[h].device
      && later.tokens[h].expiresAt == db.tokens[h].expiresAt
      && (db.tokens[h].revoked ==> later.tokens[h] == db.tokens[h])
  }

  lemma FrozenByChangePassword(db: Db, user: string, oldPassword: string, newPassword: string, now: nat)
    requires ReasonsFit(db)
    ensures TokensFrozen(db, ChangePassword(db, user, oldPassword, newPassword, now).0)
  {
  }

  lemma FrozenByDelete(db: Db, user: string, now: nat)
    requires ReasonsFit(db)
    ensures TokensFrozen(db, DeleteAccount(db, user, now))
  {
  }

  lemma FrozenByDrop(db: Db, user: string, device: string, reason: Reason, now: nat)
    requires ReasonsFit(db)
    ensures TokensFrozen(db, DropDevice(db, user, device, reason, now))
  {
  }

  lemma FrozenByLogin(db: Db, row: Option<string>, password: string, device: string, issued: string, now: nat)
    requires ReasonsFit(db)
    ensures TokensFrozen(db, Login(db, row, password, device, issued, now).0)
  {
  }

  lemma FrozenByRefresh(db: Db, token: string, device: string, issued: string, now: nat)
    requires ReasonsFit(db)
    ensures TokensFrozen(db, Refresh(db, token, device, issued, now).0)
  {
    if Redeemable(db, token, device, now) {}
  }

  lemma FrozenStep(db: Db, c: Call)
    requires ReasonsFit(db)
    ensures TokensFrozen(db, Serve(db, c).0)
  {
    match c.request
    case RegisterUser(_, _) =>
    case LoginRequest(row, password, device) => FrozenByLogin(db, row, password, device, c.issued, c.now);
    case RefreshRequest(token, device) => FrozenByRefresh(db, token, device, c.issued, c.now);
    case LogoutRequest(claims) => FrozenByDrop(db, claims.user, claims.device, LoggedOut, c.now);
    case RemoveDeviceRequest(claims, target) => FrozenByDrop(db, claims.user, target, Removed, c.now);
    case ChangePasswordRequest(claims, oldPassword, newPassword) =>
      FrozenByChangePassword(db, claims.user, oldPassword, newPassword, c.now);
    case DeleteAccountRequest(claims) => FrozenByDelete(db, claims.user, c.now);
  }

  lemma FrozenTransitive(a: Db, b: Db, c: Db)
    requires TokensFrozen(a, b) && TokensFrozen(b, c)
    ensures TokensFrozen(a, c)
  {
    forall h | h in a.tokens
      ensures && h in c.tokens
              && c.tokens[h].user == a.tokens[h].user && c.tokens[h].device == a.tokens[h].device
              && c.tokens[h].expiresAt == a.tokens[h].expiresAt
              && (a.tokens[h].revoked ==> c.tokens[h] == a.tokens[h])
    {
      assert h in b.tokens;
    }
  }

  lemma {:induction false} ReasonsAlwaysFit(calls: seq<Call>, i: nat)
    requires i <= |calls|
    ensures ReasonsFit(StateAt(calls, i))
  {
    if i > 0 {
      var c := calls[i - 1];
      ReasonsAlwaysFit(calls, i - 1);
      StateNext(calls, i - 1);
      ReasonsKept(StateAt(calls, i - 1), c.request, c.issued, c.now);
    }
  }

  lemma FrozenNext(calls: seq<Call>, i: nat)
    requires i < |calls|
    ensures TokensFrozen(StateAt(calls, i), StateAt(calls, i + 1))
  {
    ReasonsAlwaysFit(calls, i);
    StateNext(calls, i);
    FrozenStep(StateAt(calls, i), calls[i]);
  }

  /** What a token is, and why it was revoked, never changes in a run. */
  lemma {:induction false} FrozenBetween(calls: seq<Call>, i: nat, j: nat)
    requires i <= j <= |calls|
    ensures TokensFrozen(StateAt(calls, i), StateAt(calls, j))
    decreases j - i
  {
    if i < j {
      FrozenBetween(calls, i, j - 1);
      FrozenNext(calls, j - 1);
      FrozenTransitive(StateAt(calls, i), StateAt(calls, j - 1), StateAt(calls, j));
    }
  }

  predicate Redeems(c: Call, token: string) {
    c.request.RefreshRequest? && c.request.token == token
  }

  /** No refresh token is redeemed twice in any run, from whatever device it is presented. */
  lemma RedeemedOnce(calls: seq<Call>, i: nat, j: nat, token: string)
    requires i < j < |calls| && Redeems(calls[i], token) && Redeems(calls[j], token)
    requires ReplyTo(NO_USERS, calls, i).Session?
    ensures !ReplyTo(NO_USERS, calls, j).Session?
  {
    StateNext(calls, i);
    FrozenBetween(calls, i + 1, j);
    assert token in StateAt(calls, i + 1).tokens && StateAt(calls, i + 1).tokens[token].revoked;
  }

  // ---------- Cutoffs ----------

  /** Rows stay, cutoffs never decrease, and a deleted user stays deleted. */
  ghost predicate CutoffsRise(db: Db, later: Db) {
    && (forall u :: u in db.users ==>
          u in later.users && db.users[u].validAfter <= later.users[u].validAfter && (db.users[u].deleted ==> later.users[u].deleted))
    && (forall k :: k in db.devices ==> k in later.devices && db.devices[k].validAfter <= later.devices[k].validAfter)
  }

  lemma RiseByChangePassword(db: Db, user: string, oldPassword: string, newPassword: string, now: nat)
    ensures CutoffsRise(db, ChangePassword(db, user, oldPassword, newPassword, now).0)
  {
  }

  lemma RiseByDelete(db: Db, user: string, now: nat)
    ensures CutoffsRise(db, DeleteAccount(db, user, now))
  {
  }

  lemma RiseByDrop(db: Db, user: string, device: string, reason: Reason, now: nat)
    ensures CutoffsRise(db, DropDevice(db, user, device, reason, now))
  {
  }

  lemma RiseByLogin(db: Db, row: Option<string>, password: string, device: string, issued: string, now: nat)
    ensures CutoffsRise(db, Login(db, row, password, device, issued, now).0)
  {
  }

  lemma RiseByRefresh(db: Db, token: string, device: string, issued: string, now: nat)
    ensures CutoffsRise(db, Refresh(db, token, device, issued, now).0)
  {
    if Redeemable(db, token, device, now) {}
  }

  lemma CutoffsRiseStep(db: Db, c: Call)
    ensures CutoffsRise(db, Serve(db, c).0)
  {
    match c.request
    case RegisterUser(_, _) =>
    case LoginRequest(row, password, device) => RiseByLogin(db, row, password, device, c.issued, c.now);
    case RefreshRequest(token, device) => RiseByRefresh(db, token, device, c.issued, c.now);
    case LogoutRequest(claims) => RiseByDrop(db, claims.user, claims.device, LoggedOut, c.now);
    case RemoveDeviceRequest(claims, target) => RiseByDrop(db, claims.user, target, Removed, c.now);
    case ChangePasswordRequest(claims, oldPassword, newPassword) =>
      RiseByChangePassword(db, claims.user, oldPassword, newPassword, c.now);
    case DeleteAccountRequest(claims) => RiseByDelete(db, claims.user, c.now);
  }

  lemma CutoffsRiseTransitive(a: Db, b: Db, c: Db)
    requires CutoffsRise(a, b) && CutoffsRise(b, c)
    ensures CutoffsRise(a, c)
  {
    forall u | u in a.users
      ensures u in c.users && a.users[u].validAfter <= c.users[u].validAfter && (a.users[u].deleted ==> c.users[u].deleted)
    {
      assert u in b.users;
    }
    forall k | k in a.devices ensures k in c.devices && a.devices[k].validAfter <= c.devices[k].validAfter {
      assert k in b.devices;
    }
  }

  lemma CutoffsRiseNext(calls: seq<Call>, i: nat)
    requires i < |calls|
    ensures CutoffsRise(StateAt(calls, i), StateAt(calls, i + 1))
  {
    StateNext(calls, i);
    CutoffsRiseStep(StateAt(calls, i), calls[i]);
  }

  lemma {:induction false} CutoffsRiseAlong(states: seq<Db>, i: nat, j: nat)
    requires i <= j < |states| && forall n :: i <= n < j ==> CutoffsRise(states[n], states[n + 1])
    ensures CutoffsRise(states[i], states[j])
    decreases j - i
  {
    if i < j {
      CutoffsRiseAlong(states, i, j - 1);
      CutoffsRiseTransitive(states[i], states[j - 1], states[j]);
    }
  }

  /** The states of a run. */
  function States(calls: seq<Call>): (r: seq<Db>)
    ensures |r| == |calls| + 1 && forall n :: 0 <= n <= |calls| ==> r[n] == StateAt(calls, n)
  {
    seq(|calls| + 1, n requires 0 <= n <= |calls| => StateAt(calls, n))
  }

  /** Along a run no cutoff decreases, no row disappears, and no account comes back. */
  lemma CutoffsRiseBetween(calls: seq<Call>, i: nat, j: nat)
    requires i <= j <= |calls|
    ensures CutoffsRise(StateAt(calls, i), StateAt(calls, j))
  {
    var states := States(calls);
    forall n | i <= n < j ensures CutoffsRise(states[n], states[n + 1]) {
      CutoffsRiseNext(calls, n);
    }
    CutoffsRiseAlong(states, i, j);
  }

  /** An access token is below a cutoff. */
  predicate BelowCutoff(db: Db, c: Claims) {
    (c.user in db.users && c.iat < db.users[c.user].validAfter)
    || ((c.user, c.device) in db.devices && c.iat < db.devices[(c.user, c.device)].validAfter)
  }

  /** An access token once below its user's or its device's cutoff is rejected in every later state. */
  lemma RejectedForever(calls: seq<Call>, i: nat, j: nat, c: Claims)
    requires i <= j <= |calls| && BelowCutoff(StateAt(calls, i), c)
    ensures !Accepts(StateAt(calls, j), c)
  {
    CutoffsRiseBetween(calls, i, j);
  }

  /** The access token of every successful login and refresh passes the middleware right away. */
  lemma IssuedIsAccepted(calls: seq<Call>)
    requires Timely(calls) && calls != []
    requires ReplyTo(NO_USERS, calls, |calls| - 1).Session?
    ensures Accepts(Run(NO_USERS, calls), ReplyTo(NO_USERS, calls, |calls| - 1).access)
  {
    var n := |calls| - 1;
    ReachableInv(calls[..n]);
    SessionIsAccepted(Run(NO_USERS, calls[..n]), calls[n], LastTime(calls[..n]));
  }

  lemma SessionIsAccepted(db: Db, c: Call, clock: nat)
    requires Inv(db, clock) && clock <= c.now && Serve(db, c).1.Session?
    ensures Accepts(Serve(db, c).0, Serve(db, c).1.access)
  {
    if c.request.LoginRequest? {} else {}
  }

  // ---------- Revocation ----------

  /** A device has no session: it is not active, and its tokens are revoked. */
  ghost predicate SignedOut(db: Db, user: string, device: string) {
    && ((user, device) in db.devices ==> !db.devices[(user, device)].active)
    && forall h :: h in db.tokens && db.tokens[h].user == user && db.tokens[h].device == device ==> db.tokens[h].revoked
  }

  predicate LogsIn(reply: Reply, c: Call, user: string, device: string) {
    c.request.LoginRequest? && reply.Session? && reply.access.user == user && reply.access.device == device
  }

  lemma SignedOutStep(db: Db, c: Call, user: string, device: string)
    requires SignedOut(db, user, device) && !LogsIn(Serve(db, c).1, c, user, device)
    ensures SignedOut(Serve(db, c).0, user, device)
  {
  }

  /** A device stays signed out until it is logged in again. */
  lemma {:induction false} SignedOutBetween(calls: seq<Call>, i: nat, j: nat, user: string, device: string)
    requires i <= j <= |calls| && SignedOut(StateAt(calls, i), user, device)
    requires forall n :: i <= n < j ==> !LogsIn(ReplyTo(NO_USERS, calls, n), calls[n], user, device)
    ensures SignedOut(StateAt(calls, j), user, device)
    decreases j - i
  {
    if i < j {
      SignedOutBetween(calls, i, j - 1, user, device);
      StateNext(calls, j - 1);
      assert !LogsIn(ReplyTo(NO_USERS, calls, j - 1), calls[j - 1], user, device);
      SignedOutStep(StateAt(calls, j - 1), calls[j - 1], user, device);
    }
  }

  /** A signed-out device has nothing that works. */
  lemma SignedOutIsPowerless(db: Db, user: string, device: string)
    requires SignedOut(db, user, device)
    ensures forall iat :: !Accepts(db, Claims(user, device, iat))
    ensures forall h, presenter, issued, now :: h in db.tokens && db.tokens[h].user == user && db.tokens[h].device == device
              ==> !Refresh(db, h, presenter, issued, now).1.Session?
  {
  }

  /** Whether a call revoked all sessions of a user. */
  predicate RevokesAll(db: Db, c: Call, user: string) {
    match c.request
    case RefreshRequest(token, _) => Serve(db, c).1.ReuseDetected? && token in db.tokens && db.tokens[token].user == user
    case ChangePasswordRequest(claims, _, _) => Serve(db, c).1.Done? && claims.user == user
    case DeleteAccountRequest(claims) => Serve(db, c).1.Done? && claims.user == user
    case _ => false
  }

  lemma RevokesAllSignsOut(db: Db, c: Call, user: string, device: string)
    requires RevokesAll(db, c, user)
    ensures SignedOut(Serve(db, c).0, user, device)
  {
  }

  /** After reuse detection, a password change or an account deletion at step `i`, and up to the next
      successful login of that user, no access token of the user is accepted and no refresh token of
      the user is redeemed, on any device. */
  lemma GlobalRevocation(calls: seq<Call>, i: nat, j: nat, user: string, device: string)
    requires i < j <= |calls| && RevokesAll(StateAt(calls, i), calls[i], user)
    requires forall n :: i < n < j ==> !LogsIn(ReplyTo(NO_USERS, calls, n), calls[n], user, device)
    ensures var db := StateAt(calls, j);
            && SignedOut(db, user, device)
            && (forall iat :: !Accepts(db, Claims(user, device, iat)))
            && (forall h, presenter, issued, now :: h in db.tokens && db.tokens[h].user == user && db.tokens[h].device == device
                  ==> !Refresh(db, h, presenter, issued, now).1.Session?)
  {
    RevokesAllSignsOut(StateAt(calls, i), calls[i], user, device);
    StateNext(calls, i);
    SignedOutBetween(calls, i + 1, j, user, device);
    SignedOutIsPowerless(StateAt(calls, j), user, device);
  }

  /** After an account is deleted no login of it ever succeeds, so the revocation lasts for ever. */
  lemma DeletedForever(calls: seq<Call>, i: nat, j: nat, user: string, device: string)
    requires i < j <= |calls| && calls[i].request.DeleteAccountRequest? && calls[i].request.claims.user == user
    requires ReplyTo(NO_USERS, calls, i).Done?
    ensures SignedOut(StateAt(calls, j), user, device)
    ensures forall password, d, issued, now :: Login(StateAt(calls, j), Some(user), password, d, issued, now).1 == InvalidCredentials
  {
    StateNext(calls, i);
    forall n | i < n <= j ensures !LiveUser(StateAt(calls, n), user) {
      CutoffsRiseBetween(calls, i + 1, n);
    }
    forall n | i < n < j ensures !LogsIn(ReplyTo(NO_USERS, calls, n), calls[n], user, device) {
      assert !LiveUser(StateAt(calls, n), user);
    }
    GlobalRevocation(calls, i, j, user, device);
  }

  /** Logging out and removing a device sign that device out and change nothing for any other device
      or user. */
  lemma DropIsLocal(db: Db, user: string, device: string, reason: Reason, now: nat)
    ensures var after := DropDevice(db, user, device, reason, now);
            && SignedOut(after, user, device)
            && after.users == db.users
            && after.devices.Keys == db.devices.Keys && after.tokens.Keys == db.tokens.Keys
            && (forall k :: k in db.devices && k != (user, device) ==> after.devices[k] == db.devices[k])
            && (forall h :: h in db.tokens && (db.tokens[h].user, db.tokens[h].device) != (user, device) ==> after.tokens[h] == db.tokens[h])
            && (forall c: Claims :: (c.user, c.device) != (user, device) ==> (Accepts(after, c) <==> Accepts(db, c)))
  {
  }
}
