/** The client's session manager, and client and server together. */
module AuthClient {
  import opened Basics
  import opened AuthTables
  import opened AuthEffects
  import opened AuthRuns

  datatype AuthToken = AuthToken(access: Claims, refresh: string, userId: string)

  datatype AuthState = SignedOutState | Authenticated(userId: string) | NeedsRefresh | NeedsReLogin

  datatype AuthError =
    | InvalidCredentialsError | TokenExpired | NotAuthenticated
    | NetworkError | ServerError | StorageError | RegistrationFailed | Unknown

  datatype AuthResult = Granted(token: AuthToken) | Denied(error: AuthError)

  /** The manager's memory and its token store. */
  datatype Client = Client(deviceId: string, state: AuthState, current: Option<AuthToken>, store: Option<AuthToken>)

  /** Errors after which the session is over, rather than to be retried. */
  predicate Final(e: AuthError) {
    e.InvalidCredentialsError? || e.TokenExpired? || e.NotAuthenticated?
  }

  /** A new manager starts from what its store holds; a store that cannot be read counts as empty. */
  function Start(deviceId: string, store: Option<AuthToken>, readable: bool): Client {
    var loaded := if readable then store else None;
    Client(deviceId, if loaded.Some? then NeedsRefresh else SignedOutState, loaded, store)
  }

  function AfterLogin(c: Client, r: AuthResult, saved: bool): (Client, AuthResult) {
    match r
    case Denied(_) => (c, r)
    case Granted(t) =>
      if !saved then (c, Denied(StorageError))
      else (c.(state := Authenticated(t.userId), current := Some(t), store := Some(t)), r)
  }

  function AfterRefresh(c: Client, r: AuthResult, saved: bool, cleared: bool): (Client, AuthResult)
    requires c.current.Some?
  {
    match r
    case Granted(t) =>
      var token := t.(userId := if t.userId == "" then c.current.value.userId else t.userId);
      if !saved then (c, Denied(StorageError))
      else (c.(state := Authenticated(token.userId), current := Some(token), store := Some(token)), Granted(token))
    case Denied(e) =>
      if Final(e) then (c.(state := NeedsReLogin, current := None, store := if cleared then None else c.store), r)
      else (c.(state := NeedsRefresh), r)
  }

  function AfterLogout(c: Client, cleared: bool): Client {
    if cleared then c.(state := SignedOutState, current := None, store := None) else c
  }

  class AuthManager {
    const deviceId: string
    var state: AuthState
    var current: Option<AuthToken>
    var store: Option<AuthToken>

    constructor (deviceId: string, store: Option<AuthToken>, readable: bool)
      ensures View() == Start(deviceId, store, readable)
      ensures current == (if readable then store else None) && state == if current.Some? then NeedsRefresh else SignedOutState
    {
      var loaded := if readable then store else None;
      this.deviceId, this.store := deviceId, store;
      current := loaded;
      state := if loaded.Some? then NeedsRefresh else SignedOutState;
    }

    function View(): Client
      reads this
    {
      Client(deviceId, state, current, store)
    }

    /** `r` is the provider's answer, `saved` whether the store takes the token. */
    method SignIn(r: AuthResult, saved: bool) returns (result: AuthResult)
      modifies `state, `current, `store
      ensures (View(), result) == AfterLogin(old(View()), r, saved)
      ensures r.Granted? && saved ==>
                state == Authenticated(r.token.userId) && current == store == Some(r.token) && result == r
      ensures r.Denied? || !saved ==> View() == old(View()) && result == if r.Denied? then r else Denied(StorageError)
    {
      if r.Denied? { return r; }
      if !saved { return Denied(StorageError); }
      store := Some(r.token);
      current := Some(r.token);
      state := Authenticated(r.token.userId);
      return r;
    }

    /** `answer` is what the provider would answer for a refresh token. It is asked once, for the token
        held in memory, and not at all when there is none. A server that is out of reach or in trouble costs
        the client nothing but the state; only a refused token ends the session. */
    method Refresh(answer: string -> AuthResult, saved: bool, cleared: bool) returns (result: AuthResult)
      modifies `state, `current, `store
      ensures old(current).None? ==> View() == old(View()) && result == Denied(NotAuthenticated)
      ensures old(current).Some? ==> (View(), result) == AfterRefresh(old(View()), answer(old(current).value.refresh), saved, cleared)
      ensures old(current).Some? ==>
                var r := answer(old(current).value.refresh);
                && (r.Denied? && r.error in {NetworkError, ServerError, StorageError, RegistrationFailed, Unknown} ==>
                      current == old(current) && store == old(store) && state == NeedsRefresh && result == r)
                && (r.Denied? && r.error in {InvalidCredentialsError, TokenExpired, NotAuthenticated} ==>
                      current == None && store == (if cleared then None else old(store)) && state == NeedsReLogin && result == r)
                && (r.Granted? && !saved ==> View() == old(View()) && result == Denied(StorageError))
                && (r.Granted? && saved ==>
                      && current.Some? && current.value.access == r.token.access && current.value.refresh == r.token.refresh
                      && current.value.userId == (if r.token.userId == "" then old(current).value.userId else r.token.userId)
                      && store == current && state == Authenticated(current.value.userId) && result == Granted(current.value))
    {
      if current.None? { return Denied(NotAuthenticated); }
      var r := answer(current.value.refresh);
      if r.Granted? {
        var user := if r.token.userId == "" then current.value.userId else r.token.userId;
        var token := AuthToken(r.token.access, r.token.refresh, user);
        if !saved { return Denied(StorageError); }
        store := Some(token);
        current := Some(token);
        state := Authenticated(user);
        return Granted(token);
      }
      if Final(r.error) {
        if cleared { store := None; }
        current := None;
        state := NeedsReLogin;
      } else {
        state := NeedsRefresh;
      }
      return r;
    }

    /** The current access token, refreshed first if the state asks for it. */
    method GetValidToken(answer: string -> AuthResult, saved: bool, cleared: bool) returns (result: AuthResult)
      modifies `state, `current, `store
      ensures old(state).Authenticated? ==>
                View() == old(View()) && result == if current.Some? then Granted(current.value) else Denied(NotAuthenticated)
      ensures old(state).NeedsRefresh? && old(current).Some? ==>
                (View(), result) == AfterRefresh(old(View()), answer(old(current).value.refresh), saved, cleared)
      ensures old(state).SignedOutState? || old(state).NeedsReLogin? || (old(state).NeedsRefresh? && old(current).None?) ==>
                View() == old(View()) && result == Denied(NotAuthenticated)
      ensures result.Granted? ==> state.Authenticated? && current == Some(result.token)
    {
      match state
      case Authenticated(_) =>
        result := if current.Some? then Granted(current.value) else Denied(NotAuthenticated);
      case NeedsRefresh =>
        result := Refresh(answer, saved, cleared);
      case _ =>
        result := Denied(NotAuthenticated);
    }

    /** Signs out locally, whatever the server says. */
    method SignOut(cleared: bool)
      modifies `state, `current, `store
      ensures View() == AfterLogout(old(View()), cleared)
      ensures cleared ==> state == SignedOutState && current == None && store == None
      ensures !cleared ==> View() == old(View())
    {
      if cleared {
        store := None;
        current := None;
        state := SignedOutState;
      }
    }
  }

  // ---------- Client and server together ----------

  /** What a client makes of a reply; the messages of the refused ones decide the error. */
  function ResultOf(reply: Reply): AuthResult {
    match reply
    case Session(access, refresh) => Granted(AuthToken(access, refresh, access.user))
    case RefreshRefused => Denied(TokenExpired)
    case ReuseDetected => Denied(TokenExpired)
    case DoubleSpend => Denied(TokenExpired)
    case DeviceUnauthorized => Denied(NotAuthenticated)
    case InvalidCredentials => Denied(InvalidCredentialsError)
    case Unauthenticated => Denied(NotAuthenticated)
    case ServerFault => Denied(ServerError)
    case BadRequest => Denied(ServerError)
    case UserNotFound => Denied(ServerError)
    case Done => Denied(Unknown)
  }

  datatype World = World(db: Db, clients: seq<Client>)

  datatype Delivery = NotSent | Unanswered | Answered

  /** One call of a manager, start to end, or a request of anyone else. */
  datatype Move =
    | SignInMove(who: nat, row: Option<string>, password: string, delivery: Delivery, saved: bool)
    | RefreshMove(who: nat, delivery: Delivery, saved: bool, cleared: bool)
    | SignOutMove(who: nat, reaches: bool, cleared: bool)
    | RestartMove(who: nat, readable: bool)
    | OtherMove(request: Request)

  datatype Timed = Timed(move: Move, issued: string, now: nat)

  /** A refresh that gets no reply. */
  function Lost(c: Client): Client
    requires c.current.Some?
  {
    AfterRefresh(c, Denied(NetworkError), true, true).0
  }

  function Play(w: World, t: Timed): World {
    match t.move
    case SignInMove(i, row, password, delivery, saved) =>
      if i >= |w.clients| || delivery.NotSent? then w
      else
        var (db, reply) := Login(w.db, row, password, w.clients[i].deviceId, t.issued, t.now);
        if delivery.Unanswered? then w.(db := db)
        else World(db, w.clients[i := AfterLogin(w.clients[i], ResultOf(reply), saved).0])
    case RefreshMove(i, delivery, saved, cleared) =>
      if i >= |w.clients| || w.clients[i].current.None? then w
      else
        var c := w.clients[i];
        if delivery.NotSent? then w.(clients := w.clients[i := Lost(c)])
        else
          var (db, reply) := Refresh(w.db, c.current.value.refresh, c.deviceId, t.issued, t.now);
          if delivery.Unanswered? then World(db, w.clients[i := Lost(c)])
          else World(db, w.clients[i := AfterRefresh(c, ResultOf(reply), saved, cleared).0])
    case SignOutMove(i, reaches, cleared) =>
      if i >= |w.clients| then w
      else
        var c := w.clients[i];
        var db := if reaches && c.current.Some?
                  then Handle(w.db, LogoutRequest(c.current.value.access), t.issued, t.now).0 else w.db;
        World(db, w.clients[i := AfterLogout(c, cleared)])
    case RestartMove(i, readable) =>
      if i >= |w.clients| then w
      else w.(clients := w.clients[i := Start(w.clients[i].deviceId, w.clients[i].store, readable)])
    case OtherMove(request) => w.(db := Handle(w.db, request, t.issued, t.now).0)
  }

  function PlayAll(w: World, ts: seq<Timed>): World
    decreases |ts|
  {
    if ts == [] then w else Play(PlayAll(w, ts[..|ts| - 1]), ts[|ts| - 1])
  }

  // ---------- What a client makes of the replies ----------

  /** What becomes of a client whose refresh the server answers, where the invariant of the tables holds. It has
      a new session if and only if its token is spendable, the new hash is unused, and the new token is saved.
      It loses its session if and only if its token is not spendable. In every other case it keeps what it has,
      and asks again. */
  lemma AnsweredRefresh(db: Db, c: Client, issued: string, now: nat, saved: bool, cleared: bool, clock: nat)
    requires Inv(db, clock) && clock <= now && c.current.Some?
    ensures var h := c.current.value.refresh;
            var (after, result) := AfterRefresh(c, ResultOf(Refresh(db, h, c.deviceId, issued, now).1), saved, cleared);
            var good := Spendable(db, h, c.deviceId, now);
            && after.deviceId == c.deviceId && (result.Granted? <==> good && issued !in db.tokens && saved)
            && (good && issued !in db.tokens && saved ==>
                  && after.current.Some? && after.store == after.current && after.state == Authenticated(after.current.value.userId)
                  && after.current.value.access == Claims(db.tokens[h].user, c.deviceId, now) && after.current.value.refresh == issued
                  && after.current.value.userId == (if db.tokens[h].user == "" then c.current.value.userId else db.tokens[h].user))
            && (good && issued !in db.tokens && !saved ==> after == c)
            && (good && issued in db.tokens ==> after == Client(c.deviceId, NeedsRefresh, c.current, c.store))
            && (!good ==> after == Client(c.deviceId, NeedsReLogin, None, if cleared then None else c.store))
  {
    var h := c.current.value.refresh;
    RefreshAnswers(db, h, c.deviceId, issued, now, clock);
    RefreshRows(db, h, c.deviceId, issued, now);
  }

  /** What becomes of a client whose login the server answers: it is signed in if and only if the row names a
      live user with exactly this password, the new hash is unused, and the token is saved. Otherwise it keeps
      what it has. */
  lemma AnsweredLogin(db: Db, c: Client, row: Option<string>, password: string, issued: string, now: nat, saved: bool)
    ensures var (served, reply) := Login(db, row, password, c.deviceId, issued, now);
            var (after, result) := AfterLogin(c, ResultOf(reply), saved);
            && (result.Granted? <==> RightPassword(db, row, password) && issued !in db.tokens && saved)
            && (!result.Granted? ==> after == c)
            && (result.Granted? ==>
                  && (row.value, c.deviceId) in served.devices
                  && var t := AuthToken(Claims(row.value, c.deviceId, served.devices[(row.value, c.deviceId)].validAfter), issued, row.value);
                     after == Client(c.deviceId, Authenticated(row.value), Some(t), Some(t)))
  {
    LoginSucceedsIff(db, row, password, c.deviceId, issued, now);
    LoginRows(db, row, password, c.deviceId, issued, now);
  }

  /** Nothing that counts reaches client `i`: its logins and refreshes get no reply, or the reply that the server
      is in trouble, and it is neither signed out nor restarted. */
  predicate OutOfReach(w: World, t: Timed, i: nat) {
    match t.move
    case SignInMove(who, _, _, delivery, _) => who == i ==> !delivery.Answered?
    case RefreshMove(who, delivery, _, _) =>
      who == i && delivery.Answered? && i < |w.clients| && w.clients[i].current.Some? ==>
        Refresh(w.db, w.clients[i].current.value.refresh, w.clients[i].deviceId, t.issued, t.now).1.ServerFault?
    case SignOutMove(who, _, _) => who != i
    case RestartMove(who, _) => who != i
    case OtherMove(_) => true
  }

  ghost predicate OutOfReachRun(w: World, ts: seq<Timed>, i: nat)
    decreases |ts|
  {
    ts != [] ==> OutOfReachRun(w, ts[..|ts| - 1], i) && OutOfReach(PlayAll(w, ts[..|ts| - 1]), ts[|ts| - 1], i)
  }

  predicate Refreshes(t: Timed, i: nat) {
    t.move.RefreshMove? && t.move.who == i
  }

  /** The client holds the tokens it held; its state is the old one, unless it has tried to refresh them. */
  predicate Keeps(c: Client, later: Client, tried: bool) {
    && later.deviceId == c.deviceId && later.current == c.current && later.store == c.store
    && later.state == if tried && c.current.Some? then NeedsRefresh else c.state
  }

  lemma KeptByMove(w: World, t: Timed, i: nat)
    requires i < |w.clients| && OutOfReach(w, t, i)
    ensures |Play(w, t).clients| == |w.clients| && Keeps(w.clients[i], Play(w, t).clients[i], Refreshes(t, i))
  {
  }

  /** However long a client is out of reach, and however often it tries to refresh, it holds its tokens, in
      memory and in the store, until a reply that counts arrives. Its state is the old one until its first
      attempt to refresh, and asks for a refresh from then on. */
  lemma {:induction false} KeepsTokenUntilReply(w: World, ts: seq<Timed>, i: nat)
    requires i < |w.clients| && OutOfReachRun(w, ts, i)
    ensures |PlayAll(w, ts).clients| == |w.clients|
    ensures Keeps(w.clients[i], PlayAll(w, ts).clients[i], exists t :: t in ts && Refreshes(t, i))
    decreases |ts|
  {
    if ts != [] {
      var init, last := ts[..|ts| - 1], ts[|ts| - 1];
      KeepsTokenUntilReply(w, init, i);
      KeptByMove(PlayAll(w, init), last, i);
      assert forall t :: t in ts <==> t in init || t == last;
    }
  }

  /** The client holds the refresh token in memory or in its store. */
  predicate Holds(c: Client, h: string) {
    (c.current.Some? && c.current.value.refresh == h) || (c.store.Some? && c.store.value.refresh == h)
  }

  /** A refresh move that the server answers with a new session. */
  predicate Rotates(w: World, t: Timed) {
    && t.move.RefreshMove? && t.move.who < |w.clients| && w.clients[t.move.who].current.Some? && !t.move.delivery.NotSent?
    && var c := w.clients[t.move.who];
       Refresh(w.db, c.current.value.refresh, c.deviceId, t.issued, t.now).1.Session?
  }

  /** What is asked of a move: a reply with a new session arrives and its token is saved, and nobody else
      presents a refresh token that a client holds. Other replies may be lost. */
  ghost predicate Dependable(w: World, t: Timed) {
    && (Rotates(w, t) ==> t.move.delivery.Answered? && t.move.saved)
    && (t.move.OtherMove? && t.move.request.RefreshRequest?
        ==> forall i :: 0 <= i < |w.clients| ==> !Holds(w.clients[i], t.move.request.token))
  }

  ghost predicate DependableRun(w: World, ts: seq<Timed>)
    decreases |ts|
  {
    ts != [] ==> DependableRun(w, ts[..|ts| - 1]) && Dependable(PlayAll(w, ts[..|ts| - 1]), ts[|ts| - 1])
  }

  ghost predicate Beginning(w: World) {
    && w.db == NO_USERS
    && (forall i :: 0 <= i < |w.clients| ==> w.clients[i] == Client(w.clients[i].deviceId, SignedOutState, None, None))
    && (forall i, j :: 0 <= i < j < |w.clients| ==> w.clients[i].deviceId != w.clients[j].deviceId)
  }

  /** Every held token is known to the server, belongs to the holder's device, and was not rotated. */
  ghost predicate HeldAreUsable(db: Db, c: Client) {
    forall h :: Holds(c, h) ==> h in db.tokens && db.tokens[h].device == c.deviceId && !db.tokens[h].reason.Rotated?
  }

  ghost predicate Sound(w: World) {
    && ReasonsFit(w.db)
    && (forall i :: 0 <= i < |w.clients| ==> HeldAreUsable(w.db, w.clients[i]))
    && (forall i, j :: 0 <= i < j < |w.clients| ==> w.clients[i].deviceId != w.clients[j].deviceId)
  }

  /** A request rotates no token but the one it presents for refresh. */
  lemma OnlyPresentedIsRotated(db: Db, r: Request, issued: string, now: nat, h: string)
    requires ReasonsFit(db) && h in db.tokens && !db.tokens[h].reason.Rotated?
    requires r.RefreshRequest? ==> r.token != h
    ensures var after := Handle(db, r, issued, now).0;
            h in after.tokens && after.tokens[h].device == db.tokens[h].device && !after.tokens[h].reason.Rotated?
  {
  }

  /** The tokens a client holds stay usable while others are served. */
  lemma StaysUsable(db: Db, r: Request, issued: string, now: nat, c: Client)
    requires ReasonsFit(db) && HeldAreUsable(db, c)
    requires r.RefreshRequest? ==> !Holds(c, r.token)
    ensures HeldAreUsable(Handle(db, r, issued, now).0, c)
  {
    forall h | Holds(c, h)
      ensures h in Handle(db, r, issued, now).0.tokens
              && Handle(db, r, issued, now).0.tokens[h].device == c.deviceId
              && !Handle(db, r, issued, now).0.tokens[h].reason.Rotated?
    {
      OnlyPresentedIsRotated(db, r, issued, now, h);
    }
  }

  /** Other clients' tokens survive a client's own request. */
  lemma OthersStayUsable(w: World, i: nat, r: Request, issued: string, now: nat)
    requires Sound(w) && i < |w.clients|
    requires r.RefreshRequest? ==> Holds(w.clients[i], r.token)
    ensures ReasonsFit(Handle(w.db, r, issued, now).0)
    ensures forall j :: 0 <= j < |w.clients| && j != i ==> HeldAreUsable(Handle(w.db, r, issued, now).0, w.clients[j])
  {
    ReasonsKept(w.db, r, issued, now);
    forall j | 0 <= j < |w.clients| && j != i ensures HeldAreUsable(Handle(w.db, r, issued, now).0, w.clients[j]) {
      assert r.RefreshRequest? ==> w.db.tokens[r.token].device == w.clients[i].deviceId;
      StaysUsable(w.db, r, issued, now, w.clients[j]);
    }
  }

  /** A client that refreshes is not taken for reuse. If it gets a new session and saves it, or gets none,
      whether it hears of that or not, all it holds is usable. */
  lemma RefreshKeepsUsable(db: Db, c: Client, issued: string, now: nat, answered: bool, saved: bool, cleared: bool)
    requires ReasonsFit(db) && HeldAreUsable(db, c) && c.current.Some?
    requires Refresh(db, c.current.value.refresh, c.deviceId, issued, now).1.Session? ==> answered && saved
    ensures var (after, reply) := Refresh(db, c.current.value.refresh, c.deviceId, issued, now);
            && !reply.ReuseDetected?
            && HeldAreUsable(after, if answered then AfterRefresh(c, ResultOf(reply), saved, cleared).0 else Lost(c))
  {
    var (after, reply) := Refresh(db, c.current.value.refresh, c.deviceId, issued, now);
    assert Holds(c, c.current.value.refresh);
    if !reply.Session? && !reply.DoubleSpend? {
      assert after == db;
    }
  }

  /** A client's request that is not a refresh, and what the client makes of the reply, if it holds no new
      token but one that the server has just issued to it. */
  lemma SoundAfterRequest(w: World, i: nat, r: Request, issued: string, now: nat, c: Client)
    requires Sound(w) && i < |w.clients| && !r.RefreshRequest? && c.deviceId == w.clients[i].deviceId
    requires forall h :: Holds(c, h) ==>
               || Holds(w.clients[i], h)
               || (h in Handle(w.db, r, issued, now).0.tokens && Handle(w.db, r, issued, now).0.tokens[h].device == c.deviceId
                   && !Handle(w.db, r, issued, now).0.tokens[h].reason.Rotated?)
    ensures Sound(World(Handle(w.db, r, issued, now).0, w.clients[i := c]))
  {
    OthersStayUsable(w, i, r, issued, now);
    StaysUsable(w.db, r, issued, now, w.clients[i]);
  }

  lemma SoundSignIn(w: World, t: Timed)
    requires Sound(w) && t.move.SignInMove?
    ensures Sound(Play(w, t))
  {
    var i, m := t.move.who, t.move;
    if i < |w.clients| && !m.delivery.NotSent? {
      var r := LoginRequest(m.row, m.password, w.clients[i].deviceId);
      var reply := Login(w.db, m.row, m.password, w.clients[i].deviceId, t.issued, t.now).1;
      var c := if m.delivery.Unanswered? then w.clients[i] else AfterLogin(w.clients[i], ResultOf(reply), m.saved).0;
      SoundAfterRequest(w, i, r, t.issued, t.now, c);
      assert w.clients[i := w.clients[i]] == w.clients;
    }
  }

  lemma SoundRefresh(w: World, t: Timed)
    requires Sound(w) && Dependable(w, t) && t.move.RefreshMove?
    ensures Sound(Play(w, t))
  {
    var i, m := t.move.who, t.move;
    if i < |w.clients| && w.clients[i].current.Some? && !m.delivery.NotSent? {
      var c := w.clients[i];
      OthersStayUsable(w, i, RefreshRequest(c.current.value.refresh, c.deviceId), t.issued, t.now);
      RefreshKeepsUsable(w.db, c, t.issued, t.now, m.delivery.Answered?, m.saved, m.cleared);
    }
  }

  lemma SoundSignOut(w: World, t: Timed)
    requires Sound(w) && t.move.SignOutMove?
    ensures Sound(Play(w, t))
  {
    var i, m := t.move.who, t.move;
    if i < |w.clients| && m.reaches && w.clients[i].current.Some? {
      SoundAfterRequest(w, i, LogoutRequest(w.clients[i].current.value.access), t.issued, t.now, AfterLogout(w.clients[i], m.cleared));
    }
  }

  lemma SoundStep(w: World, t: Timed)
    requires Sound(w) && Dependable(w, t)
    ensures Sound(Play(w, t))
  {
    match t.move
    case SignInMove(_, _, _, _, _) => SoundSignIn(w, t);
    case RefreshMove(_, _, _, _) => SoundRefresh(w, t);
    case SignOutMove(_, _, _) => SoundSignOut(w, t);
    case RestartMove(_, _) =>
    case OtherMove(request) =>
      ReasonsKept(w.db, request, t.issued, t.now);
      forall j | 0 <= j < |w.clients| ensures HeldAreUsable(Play(w, t).db, w.clients[j]) {
        StaysUsable(w.db, request, t.issued, t.now, w.clients[j]);
      }
  }

  lemma {:induction false} AlwaysSound(w: World, ts: seq<Timed>)
    requires Beginning(w) && DependableRun(w, ts)
    ensures Sound(PlayAll(w, ts))
    decreases |ts|
  {
    if ts != [] {
      AlwaysSound(w, ts[..|ts| - 1]);
      SoundStep(PlayAll(w, ts[..|ts| - 1]), ts[|ts| - 1]);
    }
  }

  /** Client and server together: as long as replies with a new session arrive and are saved, then whatever other
      devices, other users and the clients themselves do, no token a client holds in memory or store
      was ever rotated, so no refresh by a client is ever taken for reuse. */
  lemma ClientsNeverTriggerReuse(w: World, ts: seq<Timed>, i: nat, issued: string, now: nat)
    requires Beginning(w) && DependableRun(w, ts)
    requires i < |PlayAll(w, ts).clients| && PlayAll(w, ts).clients[i].current.Some?
    ensures var at := PlayAll(w, ts);
            var c := at.clients[i];
            && (forall h :: Holds(c, h) ==> h in at.db.tokens && !at.db.tokens[h].reason.Rotated?)
            && !Refresh(at.db, c.current.value.refresh, c.deviceId, issued, now).1.ReuseDetected?
  {
    AlwaysSound(w, ts);
    RefreshKeepsUsable(PlayAll(w, ts).db, PlayAll(w, ts).clients[i], issued, now, true, true, true);
  }

  // ---------- The demand is needed ----------

  /** The server's tables change by requests only. */
  lemma PlayFrozen(w: World, t: Timed)
    requires ReasonsFit(w.db)
    ensures ReasonsFit(Play(w, t).db) && TokensFrozen(w.db, Play(w, t).db)
  {
    match t.move
    case SignInMove(i, row, password, _, _) =>
      if i < |w.clients| { ServedFrozen(w.db, LoginRequest(row, password, w.clients[i].deviceId), t.issued, t.now); }
    case RefreshMove(i, _, _, _) =>
      if i < |w.clients| && w.clients[i].current.Some? {
        ServedFrozen(w.db, RefreshRequest(w.clients[i].current.value.refresh, w.clients[i].deviceId), t.issued, t.now);
      }
    case SignOutMove(i, _, _) =>
      if i < |w.clients| && w.clients[i].current.Some? {
        ServedFrozen(w.db, LogoutRequest(w.clients[i].current.value.access), t.issued, t.now);
      }
    case RestartMove(_, _) =>
    case OtherMove(request) => ServedFrozen(w.db, request, t.issued, t.now);
  }

  lemma ServedFrozen(db: Db, r: Request, issued: string, now: nat)
    requires ReasonsFit(db)
    ensures ReasonsFit(Handle(db, r, issued, now).0) && TokensFrozen(db, Handle(db, r, issued, now).0)
  {
    ReasonsKept(db, r, issued, now);
    FrozenStep(db, Call(r, issued, now));
  }

  lemma {:induction false} PlayedFrozen(w: World, ts: seq<Timed>, n: nat)
    requires Beginning(w) && n <= |ts|
    ensures ReasonsFit(PlayAll(w, ts).db) && TokensFrozen(PlayAll(w, ts[..n]).db, PlayAll(w, ts).db)
    decreases |ts|
  {
    if n == |ts| { assert ts[..n] == ts; }
    if ts != [] {
      var init, mid := ts[..|ts| - 1], PlayAll(w, ts[..|ts| - 1]);
      PlayedFrozen(w, init, if n < |ts| then n else 0);
      PlayFrozen(mid, ts[|ts| - 1]);
      if n < |ts| {
        assert init[..n] == ts[..n];
        FrozenTransitive(PlayAll(w, ts[..n]).db, mid.db, PlayAll(w, ts).db);
      }
    }
  }

  /** If the server answers a client's refresh with a new session and the reply is lost or its token is not
      saved, then whatever happens meanwhile, for as long as the client holds the old token, its next
      refresh is taken for reuse and signs the user out on every device. */
  lemma LostRefreshSignsOut(w: World, ts: seq<Timed>, n: nat, i: nat, issued: string, now: nat, device: string)
    requires Beginning(w) && n < |ts| && ts[n].move.RefreshMove? && ts[n].move.who == i
    requires Rotates(PlayAll(w, ts[..n]), ts[n]) && !(ts[n].move.delivery.Answered? && ts[n].move.saved)
    requires i < |PlayAll(w, ts).clients| && PlayAll(w, ts).clients[i].current.Some?
    requires PlayAll(w, ts).clients[i].current.value.refresh == PlayAll(w, ts[..n]).clients[i].current.value.refresh
    ensures var lost, at := PlayAll(w, ts[..n]), PlayAll(w, ts);
            var h := at.clients[i].current.value.refresh;
            && i < |PlayAll(w, ts[..n + 1]).clients| && PlayAll(w, ts[..n + 1]).clients[i].current == lost.clients[i].current
            && h in lost.db.tokens
            && var (end, reply) := Refresh(at.db, h, at.clients[i].deviceId, issued, now);
               reply.ReuseDetected? && SignedOut(end, lost.db.tokens[h].user, device)
  {
    var lost, next, h := PlayAll(w, ts[..n]), PlayAll(w, ts[..n + 1]), PlayAll(w, ts).clients[i].current.value.refresh;
    assert ts[..n + 1][..n] == ts[..n];
    StillHolds(lost, ts[n]);
    PlayedFrozen(w, ts, n + 1);
    ReuseSignsOut(PlayAll(w, ts).db, h, PlayAll(w, ts).clients[i].deviceId, issued, now, device);
  }

  /** Right after the lost refresh the client holds the old token, which the server has marked rotated. */
  lemma StillHolds(w: World, t: Timed)
    requires Rotates(w, t) && !(t.move.delivery.Answered? && t.move.saved)
    ensures var i, h := t.move.who, w.clients[t.move.who].current.value.refresh;
            && |Play(w, t).clients| == |w.clients| && Play(w, t).clients[i].current == w.clients[i].current
            && h in w.db.tokens && h in Play(w, t).db.tokens
            && Play(w, t).db.tokens[h] == w.db.tokens[h].(revoked := true, reason := Rotated)
  {
  }

  lemma ReuseSignsOut(db: Db, h: string, presenter: string, issued: string, now: nat, device: string)
    requires h in db.tokens && db.tokens[h].revoked && db.tokens[h].reason.Rotated?
    ensures var (end, reply) := Refresh(db, h, presenter, issued, now);
            reply.ReuseDetected? && SignedOut(end, db.tokens[h].user, device)
  {
  }
}
