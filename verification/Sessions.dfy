/** Sessions, tokens and the operations that renew or revoke them. Stores are maps whose operations succeed and
    each operation is one step. A token is its claims: `None` stands for a string whose signature or shape the
    JWT library rejects. */
module Sessions {
  import opened Sequences

  type Time = int

  /** Nanoseconds in a second: JWT dates are cut to whole seconds. */
  const Second := 1_000_000_000

  datatype User = User(password: string, verified: bool, admin: bool)
  datatype Session = Session(email: string, expires: Time)
  datatype Grant = Grant(email: string, expires: Time)
  datatype Change = Change(from: string, to: string, expires: Time)
  datatype Stores = Stores(
    users: map<string, User>, sessions: map<string, Session>, resets: map<string, Grant>, changes: map<string, Change>)

  datatype Audience = Access | Refresh
  datatype Token = Token(id: string, subject: string, expires: Time, audience: Audience)

  datatype Config = Config(accessTtl: nat, refreshTtl: nat, resetTtl: nat, requireVerification: bool, strong: string -> bool)

  function NumericDate(t: Time): Time { t - t % Second }

  function AccessToken(id: string, email: string, now: Time, config: Config): Token {
    Token(id, email, NumericDate(now + config.accessTtl), Access)
  }

  function RefreshToken(id: string, email: string, now: Time, config: Config): Token {
    Token(id, email, NumericDate(now + config.refreshTtl), Refresh)
  }

  predicate Validates(token: Token, now: Time) {
    now < token.expires && token.audience == Access && token.id != "" && token.subject != ""
  }

  predicate Refreshes(sessions: map<string, Session>, token: Token, now: Time) {
    && now < token.expires && token.audience == Refresh && token.id != "" && token.subject != ""
    && token.id in sessions && sessions[token.id].email == token.subject
  }

  function Without(sessions: map<string, Session>, email: string): map<string, Session> {
    map id <- sessions | sessions[id].email != email :: sessions[id]
  }

  function WithoutOthers(sessions: map<string, Session>, email: string, keep: string): map<string, Session> {
    map id <- sessions | sessions[id].email != email || id == keep :: sessions[id]
  }

  function Unexpired(sessions: map<string, Session>, asOf: Time): map<string, Session> {
    map id <- sessions | sessions[id].expires > asOf :: sessions[id]
  }

  function WithPassword(stores: Stores, email: string, password: string): Stores
    requires email in stores.users
  {
    stores.(users := stores.users[email := stores.users[email].(password := password)],
            sessions := Without(stores.sessions, email))
  }

  // ---------------------------------------------------------------- requests

  datatype Request =
    | Register(email: string, password: string)
    | VerifyEmail(email: string)
    | Login(email: string, password: string, id: string)
    | IssueSession(email: string, id: string)
    | RefreshWith(token: Option<Token>)
    | Logout(token: Option<Token>)
    | LogoutAll(email: string, current: string, keepCurrent: bool)
    | ChangePassword(email: string, current: string, password: string)
    | SetPasswordAdmin(email: string, password: string)
    | RequestReset(email: string, grant: string)
    | ResetPassword(grant: string, password: string)
    | RequestEmailChange(email: string, newEmail: string, change: string)
    | ConfirmEmailChange(change: string)
    | DeleteUser(email: string)
    | CleanupExpired(asOf: Time)

  predicate Authenticates(users: map<string, User>, email: string, password: string) {
    email in users && users[email].password == password
  }

  predicate Admits(stores: Stores, email: string, password: string, config: Config) {
    Authenticates(stores.users, email, password) && (config.requireVerification ==> stores.users[email].verified)
  }

  /** The reset grant is taken out of the store. */
  predicate Redeems(stores: Stores, grant: string, now: Time) {
    grant in stores.resets && stores.resets[grant].expires > now
  }

  predicate Confirms(stores: Stores, change: string, now: Time) {
    change in stores.changes && stores.changes[change].expires >= now
  }

  function GrantsWithout(resets: map<string, Grant>, email: string): map<string, Grant> {
    map g <- resets | resets[g].email != email :: resets[g]
  }

  function ChangesWithout(changes: map<string, Change>, email: string): map<string, Change> {
    map c <- changes | changes[c].from != email :: changes[c]
  }

  function Moved(sessions: map<string, Session>, from: string, to: string): map<string, Session> {
    map id <- sessions :: if sessions[id].email == from then sessions[id].(email := to) else sessions[id]
  }

  function UsersMoved(users: map<string, User>, from: string, to: string): map<string, User> {
    if from in users then (users - {from})[to := users[from]] else users
  }

  /** The whole change of a user's address, or nothing when the new address is taken. */
  function Renamed(stores: Stores, from: string, to: string): Stores {
    if to in stores.users then stores
    else Stores(UsersMoved(stores.users, from, to), Moved(stores.sessions, from, to),
                GrantsWithout(stores.resets, from), ChangesWithout(stores.changes, from))
  }

  function Deleted(stores: Stores, email: string): Stores {
    Stores(stores.users - {email}, Without(stores.sessions, email),
           GrantsWithout(stores.resets, email), ChangesWithout(stores.changes, email))
  }

  function Served(stores: Stores, request: Request, now: Time, config: Config): Stores {
    match request
    case Register(email, password) =>
      if email in stores.users || !config.strong(password) then stores
      else stores.(users := stores.users[email := User(password, !config.requireVerification, false)])
    case VerifyEmail(email) =>
      if email in stores.users then stores.(users := stores.users[email := stores.users[email].(verified := true)])
      else stores
    case Login(email, password, id) =>
      if Admits(stores, email, password, config) then stores.(sessions := stores.sessions[id := Session(email, now + config.refreshTtl)])
      else stores
    case IssueSession(email, id) =>
      if email in stores.users then stores.(sessions := stores.sessions[id := Session(email, now + config.refreshTtl)])
      else stores
    case RefreshWith(token) =>
      if token.Some? && Refreshes(stores.sessions, token.value, now)
      then stores.(sessions := stores.sessions[token.value.id := Session(token.value.subject, now + config.refreshTtl)])
      else stores
    case Logout(token) =>
      if token.Some? && now < token.value.expires && token.value.audience == Refresh && token.value.id != ""
      then stores.(sessions := stores.sessions - {token.value.id})
      else stores
    case LogoutAll(email, current, keepCurrent) =>
      stores.(sessions := if keepCurrent && current != "" then WithoutOthers(stores.sessions, email, current) else Without(stores.sessions, email))
    case ChangePassword(email, current, password) =>
      if config.strong(password) && current != password && Authenticates(stores.users, email, current)
      then WithPassword(stores, email, password) else stores
    case SetPasswordAdmin(email, password) =>
      if config.strong(password) && email in stores.users then WithPassword(stores, email, password) else stores
    case RequestReset(email, grant) =>
      if email in stores.users then stores.(resets := stores.resets[grant := Grant(email, now + config.resetTtl)]) else stores
    case ResetPassword(grant, password) =>
      if config.strong(password) && Redeems(stores, grant, now) then
        var email, left := stores.resets[grant].email, stores.(resets := stores.resets - {grant});
        if email in stores.users then WithPassword(left, email, password) else left
      else stores
    case RequestEmailChange(email, newEmail, change) =>
      if email in stores.users && newEmail !in stores.users && newEmail != ""
      then stores.(changes := stores.changes[change := Change(email, newEmail, now + 24 * 3600 * Second)]) else stores
    case ConfirmEmailChange(change) =>
      if Confirms(stores, change, now) then
        var c := stores.changes[change];
        Renamed(stores.(sessions := Without(stores.sessions, c.from)), c.from, c.to)
      else stores
    case DeleteUser(email) =>
      if email in stores.users && !stores.users[email].admin then Deleted(stores, email) else stores
    case CleanupExpired(asOf) => stores.(sessions := Unexpired(stores.sessions, asOf))
  }

  function Pair(id: string, email: string, now: Time, config: Config): set<Token> {
    {AccessToken(id, email, now, config), RefreshToken(id, email, now, config)}
  }

  /** The tokens handed out in answer to a request. */
  function Issued(stores: Stores, request: Request, now: Time, config: Config): set<Token> {
    match request
    case Login(email, password, id) => if Admits(stores, email, password, config) then Pair(id, email, now, config) else {}
    case IssueSession(email, id) => if email in stores.users then Pair(id, email, now, config) else {}
    case RefreshWith(token) =>
      if token.Some? && Refreshes(stores.sessions, token.value, now) then Pair(token.value.id, token.value.subject, now, config) else {}
    case _ => {}
  }

  // ---------------------------------------------------------------- the service

  class AuthService {
    const config: Config
    var stores: Stores

    constructor (config: Config)
      ensures this.config == config && stores == Stores(map[], map[], map[], map[])
    {
      this.config, stores := config, Stores(map[], map[], map[], map[]);
    }

    method ValidateToken(token: Option<Token>, now: Time) returns (session: Option<Session>)
      ensures session.Some? <==> token.Some? && Validates(token.value, now)
      ensures session.Some? ==> session.value.email == token.value.subject && now < session.value.expires == token.value.expires
    {
      if token.None? || token.value.expires <= now {
        return None;
      }
      if token.value.audience != Access || now > token.value.expires || token.value.id == "" || token.value.subject == "" {
        return None;
      }
      return Some(Session(token.value.subject, token.value.expires));
    }

    /** The part of `Login` behind the rate limiters, the lockout and the captcha. */
    method Login(email: string, password: string, id: string, now: Time) returns (tokens: set<Token>)
      modifies this
      ensures stores == Served(old(stores), Request.Login(email, password, id), now, config)
      ensures tokens == Issued(old(stores), Request.Login(email, password, id), now, config)
    {
      if email !in stores.users || stores.users[email].password != password {
        return {};
      }
      if config.requireVerification && !stores.users[email].verified {
        return {};
      }
      tokens := IssueSession(email, id, now);
    }

    /** A session without a password check. The code does not look the address up: an unknown one is refused by the
        foreign key of the sessions table, and no token is handed out. */
    method IssueSession(email: string, id: string, now: Time) returns (tokens: set<Token>)
      modifies this
      ensures stores == Served(old(stores), Request.IssueSession(email, id), now, config)
      ensures tokens == Issued(old(stores), Request.IssueSession(email, id), now, config)
    {
      if email !in stores.users {
        return {};
      }
      stores := stores.(sessions := stores.sessions[id := Session(email, now + config.refreshTtl)]);
      tokens := {AccessToken(id, email, now, config), RefreshToken(id, email, now, config)};
    }

    method Refresh(token: Option<Token>, now: Time) returns (tokens: set<Token>)
      modifies this
      ensures stores == Served(old(stores), RefreshWith(token), now, config)
      ensures tokens == Issued(old(stores), RefreshWith(token), now, config)
    {
      if token.None? || token.value.expires <= now || token.value.id == "" || token.value.subject == "" {
        return {};
      }
      if token.value.audience != Audience.Refresh || now > token.value.expires {
        return {};
      }
      var id := token.value.id;
      if id !in stores.sessions || stores.sessions[id].email != token.value.subject {
        return {};
      }
      var email := stores.sessions[id].email;
      tokens := {AccessToken(id, email, now, config), RefreshToken(id, email, now, config)};
      stores := stores.(sessions := stores.sessions[id := stores.sessions[id].(expires := now + config.refreshTtl)]);
    }

    method Logout(token: Option<Token>, now: Time) returns (ok: bool)
      modifies this
      ensures stores == Served(old(stores), Request.Logout(token), now, config)
      ensures ok ==> token.Some? && token.value.id !in stores.sessions
    {
      if token.None? || token.value.expires <= now || token.value.id == "" || token.value.audience != Audience.Refresh {
        return false;
      }
      stores := stores.(sessions := stores.sessions - {token.value.id});
      return true;
    }

    method RevokeByEmail(email: string)
      modifies this
      ensures stores == old(stores).(sessions := Without(old(stores).sessions, email))
    {
      stores := stores.(sessions := Without(stores.sessions, email));
    }

    method LogoutAllSessions(email: string, current: string, keepCurrent: bool, now: Time)
      modifies this
      ensures stores == Served(old(stores), LogoutAll(email, current, keepCurrent), now, config)
    {
      if keepCurrent && current != "" {
        stores := stores.(sessions := WithoutOthers(stores.sessions, email, current));
      } else {
        RevokeByEmail(email);
      }
    }

    method UpdatePassword(email: string, password: string) returns (ok: bool)
      modifies this
      ensures ok <==> email in old(stores).users
      ensures stores == if ok then old(stores).(users := old(stores).users[email := old(stores).users[email].(password := password)]) else old(stores)
    {
      if email !in stores.users {
        return false;
      }
      stores := stores.(users := stores.users[email := stores.users[email].(password := password)]);
      return true;
    }

    method ChangePassword(email: string, current: string, password: string, now: Time) returns (ok: bool)
      modifies this
      ensures stores == Served(old(stores), Request.ChangePassword(email, current, password), now, config)
      ensures ok <==> Revokes(old(stores), Request.ChangePassword(email, current, password), now, config) == Some(email)
    {
      if !config.strong(password) || current == password {
        return false;
      }
      if email !in stores.users || stores.users[email].password != current {
        return false;
      }
      ok := UpdatePassword(email, password);
      RevokeByEmail(email);
    }

    method SetPasswordAdmin(email: string, password: string, now: Time) returns (ok: bool)
      modifies this
      ensures stores == Served(old(stores), Request.SetPasswordAdmin(email, password), now, config)
      ensures ok <==> Revokes(old(stores), Request.SetPasswordAdmin(email, password), now, config) == Some(email)
    {
      if !config.strong(password) {
        return false;
      }
      ok := UpdatePassword(email, password);
      if ok {
        RevokeByEmail(email);
      }
    }

    method ResetPassword(grant: string, password: string, now: Time) returns (ok: bool)
      modifies this
      ensures stores == Served(old(stores), Request.ResetPassword(grant, password), now, config)
      ensures ok <==> Revokes(old(stores), Request.ResetPassword(grant, password), now, config).Some?
    {
      if !config.strong(password) || grant !in stores.resets || stores.resets[grant].expires <= now {
        return false;
      }
      var email := stores.resets[grant].email;
      stores := stores.(resets := stores.resets - {grant});
      ok := UpdatePassword(email, password);
      if ok {
        RevokeByEmail(email);
      }
    }

    method ConfirmEmailChange(change: string, now: Time) returns (email: Option<string>)
      modifies this
      ensures stores == Served(old(stores), Request.ConfirmEmailChange(change), now, config)
      ensures email.Some? ==> Confirms(old(stores), change, now) && email.value == old(stores).changes[change].to && email.value !in old(stores).users
    {
      if change !in stores.changes || stores.changes[change].expires < now {
        return None;
      }
      var c := stores.changes[change];
      RevokeByEmail(c.from);
      if c.to in stores.users {
        return None;
      }
      stores := Renamed(stores, c.from, c.to);
      return Some(c.to);
    }

    method DeleteUser(email: string, now: Time) returns (ok: bool)
      modifies this
      ensures stores == Served(old(stores), Request.DeleteUser(email), now, config)
      ensures ok <==> Revokes(old(stores), Request.DeleteUser(email), now, config) == Some(email)
    {
      if email !in stores.users || stores.users[email].admin {
        return false;
      }
      stores := Deleted(stores, email);
      return true;
    }

    method CleanupExpired(asOf: Time, now: Time)
      modifies this
      ensures stores == Served(old(stores), Request.CleanupExpired(asOf), now, config)
    {
      stores := stores.(sessions := Unexpired(stores.sessions, asOf));
    }
  }

  // ---------------------------------------------------------------- whole runs

  /** The address all of whose sessions a request ends. */
  function Revokes(stores: Stores, request: Request, now: Time, config: Config): Option<string> {
    match request
    case LogoutAll(email, current, keepCurrent) => if keepCurrent && current != "" then None else Some(email)
    case ChangePassword(email, current, password) =>
      if config.strong(password) && current != password && Authenticates(stores.users, email, current) then Some(email) else None
    case SetPasswordAdmin(email, password) => if config.strong(password) && email in stores.users then Some(email) else None
    case ResetPassword(grant, password) =>
      if config.strong(password) && Redeems(stores, grant, now) && stores.resets[grant].email in stores.users
      then Some(stores.resets[grant].email) else None
    case ConfirmEmailChange(change) => if Confirms(stores, change, now) then Some(stores.changes[change].from) else None
    case DeleteUser(email) => if email in stores.users && !stores.users[email].admin then Some(email) else None
    case _ => None
  }

  datatype Event = Event(request: Request, at: Time)

  /** `used` are the session ids drawn so far. */
  datatype World = World(stores: Stores, issued: set<Token>, used: set<string>, clock: Time)

  function Drawn(request: Request): set<string> {
    match request
    case Login(_, _, id) => {id}
    case IssueSession(_, id) => {id}
    case _ => {}
  }

  /** The clock does not run backwards, session ids are fresh, and signatures are not forged. */
  ghost predicate Possible(w: World, e: Event) {
    && e.at >= w.clock
    && Drawn(e.request) !! w.used && "" !in Drawn(e.request)
    && (e.request.RefreshWith? && e.request.token.Some? ==> e.request.token.value in w.issued)
    && (e.request.Logout? && e.request.token.Some? ==> e.request.token.value in w.issued)
    && (e.request.CleanupExpired? ==> e.request.asOf <= e.at)
  }

  function Next(w: World, e: Event, config: Config): World {
    World(Served(w.stores, e.request, e.at, config), w.issued + Issued(w.stores, e.request, e.at, config),
          w.used + Drawn(e.request), e.at)
  }

  function After(w: World, run: seq<Event>, config: Config): World
    decreases |run|
  {
    if run == [] then w else Next(After(w, run[..|run| - 1], config), run[|run| - 1], config)
  }

  ghost predicate PossibleRun(w: World, run: seq<Event>, config: Config)
    decreases |run|
  {
    run == [] || (PossibleRun(w, run[..|run| - 1], config) && Possible(After(w, run[..|run| - 1], config), run[|run| - 1]))
  }

  ghost predicate TokenFits(w: World, t: Token, config: Config) {
    && t.id in w.used && t.id != ""
    && t.expires <= w.clock + (if t.audience == Access then config.accessTtl else config.refreshTtl)
    && (t.id in w.stores.sessions ==> t.subject == w.stores.sessions[t.id].email)
    && (t.id in w.stores.sessions && t.audience == Refresh ==> t.expires <= w.stores.sessions[t.id].expires)
  }

  /** Every token is of a drawn session, expires within its lifetime, and while its session is stored carries that
      session's address and does not outlive it. */
  ghost predicate Inv(w: World, config: Config) {
    && (forall id <- w.stores.sessions :: id in w.used)
    && (forall t <- w.issued :: TokenFits(w, t, config))
  }

  /** Requests keep a stored session's address; they renew it or leave it alone. */
  lemma StoredSessions(stores: Stores, request: Request, now: Time, config: Config, id: string)
    requires id in Served(stores, request, now, config).sessions && (id in stores.sessions ==> id !in Drawn(request))
    ensures var after := Served(stores, request, now, config).sessions[id];
      if id in stores.sessions then
        && after.email == stores.sessions[id].email
        && (after == stores.sessions[id] || Issued(stores, request, now, config) == Pair(id, after.email, now, config))
        && (after.expires == stores.sessions[id].expires || after.expires == now + config.refreshTtl)
      else
        && id in Drawn(request) && after.expires == now + config.refreshTtl
        && Issued(stores, request, now, config) == Pair(id, after.email, now, config)
  {
  }

  lemma IssuedTokens(stores: Stores, request: Request, now: Time, config: Config, t: Token)
    requires t in Issued(stores, request, now, config)
    ensures t in Pair(t.id, t.subject, now, config)
    ensures t.id in Served(stores, request, now, config).sessions
    ensures Served(stores, request, now, config).sessions[t.id] == Session(t.subject, now + config.refreshTtl)
    ensures t.id in Drawn(request) || (request.RefreshWith? && request.token.Some? && request.token.value.id == t.id && t.id in stores.sessions && t.id != "")
  {
  }

  lemma TokenStep(w: World, e: Event, config: Config, t: Token)
    requires Inv(w, config) && Possible(w, e) && t in Next(w, e, config).issued
    ensures TokenFits(Next(w, e, config), t, config)
  {
    if t in Issued(w.stores, e.request, e.at, config) {
      IssuedTokens(w.stores, e.request, e.at, config, t);
    } else {
      assert TokenFits(w, t, config);
      if t.id in Served(w.stores, e.request, e.at, config).sessions {
        StoredSessions(w.stores, e.request, e.at, config, t.id);
      }
    }
  }

  lemma StepKeepsInv(w: World, e: Event, config: Config)
    requires Inv(w, config) && Possible(w, e)
    ensures Inv(Next(w, e, config), config)
  {
    var n := Next(w, e, config);
    forall id <- n.stores.sessions
      ensures id in n.used
    {
      StoredSessions(w.stores, e.request, e.at, config, id);
    }
    forall t <- n.issued
      ensures TokenFits(n, t, config)
    {
      TokenStep(w, e, config, t);
    }
  }

  lemma {:induction false} RunKeepsInv(w: World, run: seq<Event>, config: Config)
    requires Inv(w, config) && PossibleRun(w, run, config)
    ensures Inv(After(w, run, config), config) && After(w, run, config).clock >= w.clock
    ensures w.issued <= After(w, run, config).issued && w.used <= After(w, run, config).used
    decreases |run|
  {
    if run != [] {
      RunKeepsInv(w, run[..|run| - 1], config);
      StepKeepsInv(After(w, run[..|run| - 1], config), run[|run| - 1], config);
    }
  }

  /** A session that is gone never comes back. */
  lemma {:induction false} GoneStaysGone(w: World, run: seq<Event>, config: Config, id: string)
    requires PossibleRun(w, run, config) && id in w.used && id !in w.stores.sessions
    ensures id !in After(w, run, config).stores.sessions && id in After(w, run, config).used
    decreases |run|
  {
    if run != [] {
      var before, e := After(w, run[..|run| - 1], config), run[|run| - 1];
      GoneStaysGone(w, run[..|run| - 1], config, id);
      if id in Next(before, e, config).stores.sessions {
        StoredSessions(before.stores, e.request, e.at, config, id);
      }
    }
  }

  lemma {:induction false} GoneIssuesNothing(w: World, run: seq<Event>, config: Config, t: Token)
    requires PossibleRun(w, run, config) && t.id in w.used && t.id !in w.stores.sessions
    requires t in After(w, run, config).issued
    ensures t in w.issued
    decreases |run|
  {
    if run != [] {
      var before, e := After(w, run[..|run| - 1], config), run[|run| - 1];
      GoneStaysGone(w, run[..|run| - 1], config, t.id);
      if t in Issued(before.stores, e.request, e.at, config) {
        IssuedTokens(before.stores, e.request, e.at, config, t);
      }
      assert t in before.issued;
      GoneIssuesNothing(w, run[..|run| - 1], config, t);
    }
  }

  /** A world that some run reaches from a service that has issued nothing. */
  ghost predicate Reachable(w: World, config: Config) {
    exists start: World, run: seq<Event> ::
      start.stores.sessions == map[] && start.issued == {} && PossibleRun(start, run, config) && w == After(start, run, config)
  }

  lemma ReachableInv(w: World, config: Config)
    requires Reachable(w, config)
    ensures Inv(w, config)
  {
    var start: World, run: seq<Event> :|
      start.stores.sessions == map[] && start.issued == {} && PossibleRun(start, run, config) && w == After(start, run, config);
    RunKeepsInv(start, run, config);
  }

  /** After a password change or reset, an address change, a deletion or a full logout of an address at time t, no
      token of a session it had before is ever accepted by `Refresh`, however the run goes on, and none by
      `ValidateToken` from t + accessTtl on. `earlier` is any earlier token of the address, `t` any token ever issued
      for the same session. */
  lemma RevocationIsFinal(w: World, e: Event, more: seq<Event>, config: Config, earlier: Token, t: Token)
    requires Reachable(w, config) && Possible(w, e) && earlier in w.issued
    requires Revokes(w.stores, e.request, e.at, config) == Some(earlier.subject)
    requires PossibleRun(Next(w, e, config), more, config)
    requires t in After(Next(w, e, config), more, config).issued && t.id == earlier.id
    ensures forall now :: !Refreshes(After(Next(w, e, config), more, config).stores.sessions, t, now)
    ensures forall now :: now >= e.at + config.accessTtl ==> !Validates(t, now)
  {
    ReachableInv(w, config);
    var n := Next(w, e, config);
    if t.id !in w.stores.sessions && t.id in n.stores.sessions {
      StoredSessions(w.stores, e.request, e.at, config, t.id);
    }
    GoneStaysGone(n, more, config, t.id);
    GoneIssuesNothing(n, more, config, t);
  }

  lemma {:induction false} AddressStays(w: World, run: seq<Event>, config: Config, id: string)
    requires Inv(w, config) && PossibleRun(w, run, config) && id in w.used && id in After(w, run, config).stores.sessions
    ensures id in w.stores.sessions && After(w, run, config).stores.sessions[id].email == w.stores.sessions[id].email
    decreases |run|
  {
    if run != [] {
      var before, e := After(w, run[..|run| - 1], config), run[|run| - 1];
      RunKeepsInv(w, run[..|run| - 1], config);
      StoredSessions(before.stores, e.request, e.at, config, id);
      AddressStays(w, run[..|run| - 1], config, id);
    }
  }

  /** Seen from the end: after such a revocation the sessions of the address whose tokens `Refresh` accepts are those
      that were created after it. */
  lemma AcceptedIsLater(w: World, e: Event, more: seq<Event>, config: Config, t: Token, now: Time)
    requires Reachable(w, config) && Possible(w, e) && Revokes(w.stores, e.request, e.at, config) == Some(t.subject)
    requires PossibleRun(Next(w, e, config), more, config)
    requires Refreshes(After(Next(w, e, config), more, config).stores.sessions, t, now)
    ensures t.id !in w.used
  {
    ReachableInv(w, config);
    StepKeepsInv(w, e, config);
    if t.id in w.used {
      var n := Next(w, e, config);
      AddressStays(n, more, config, t.id);
      StoredSessions(w.stores, e.request, e.at, config, t.id);
      NotRevoked(w.stores, e.request, e.at, config, t.id);
    }
  }

  lemma NotRevoked(stores: Stores, request: Request, now: Time, config: Config, id: string)
    requires id in stores.sessions && id in Served(stores, request, now, config).sessions
    ensures Revokes(stores, request, now, config) != Some(stores.sessions[id].email)
  {
  }

  /** `Login` checks the password and creates the session in two store calls. If the password changes between them
      the session is created after the change and lives, though the password it was opened with is not accepted
      any more. */
  lemma LoginAcrossChange(w: World, config: Config, email: string, password: string, next: string, changed: Time, id: string, at: Time)
    requires Inv(w, config) && Admits(w.stores, email, password, config) && email != ""
    requires config.strong(next) && next != password && w.clock <= changed <= at
    requires id !in w.used && id != "" && at < NumericDate(at + config.refreshTtl)
    ensures var change, create := Event(ChangePassword(email, password, next), changed), Event(IssueSession(email, id), at);
      var n := Next(w, change, config);
      && Possible(w, change) && Revokes(w.stores, change.request, changed, config) == Some(email) && Possible(n, create)
      && !Admits(n.stores, email, password, config)
      && RefreshToken(id, email, at, config) in Next(n, create, config).issued
      && Refreshes(Next(n, create, config).stores.sessions, RefreshToken(id, email, at, config), at)
  {
  }

  /** `UPDATE sessions SET expires_at ... WHERE token = id`. */
  function Renewed(sessions: map<string, Session>, id: string, expires: Time): map<string, Session> {
    if id in sessions then sessions[id := sessions[id].(expires := expires)] else sessions
  }

  /** `Refresh` reads the session, signs two tokens and renews the session in separate steps. If a revocation comes
      between reading and signing, the renewal finds nothing and the refresh token is never accepted, but the access
      token counts its lifetime from the signing: it is accepted at or after the time from which the revocation ends
      all others exactly when the signing is late enough for that. */
  lemma RefreshAcrossChange(w: World, e: Event, more: seq<Event>, config: Config, t: Token, read: Time, at: Time)
    requires Reachable(w, config) && Possible(w, e) && Refreshes(w.stores.sessions, t, read)
    requires Revokes(w.stores, e.request, e.at, config) == Some(t.subject) && read <= e.at <= at
    requires PossibleRun(Next(w, e, config), more, config)
    ensures var sessions := After(Next(w, e, config), more, config).stores.sessions;
      && Renewed(sessions, t.id, at + config.refreshTtl) == sessions
      && forall now :: !Refreshes(sessions, RefreshToken(t.id, t.subject, at, config), now)
    ensures var access := AccessToken(t.id, t.subject, at, config);
      && (forall now :: Validates(access, now) ==> now < at + config.accessTtl)
      && ((exists now :: now >= e.at + config.accessTtl && Validates(access, now)) <==>
          e.at + config.accessTtl < NumericDate(at + config.accessTtl))
  {
    RevokedIsGone(w, e, more, config, t.id);
    LateAccess(t, e.at, at, config);
  }

  lemma RevokedIsGone(w: World, e: Event, more: seq<Event>, config: Config, id: string)
    requires Reachable(w, config) && Possible(w, e) && id in w.stores.sessions
    requires Revokes(w.stores, e.request, e.at, config) == Some(w.stores.sessions[id].email)
    requires PossibleRun(Next(w, e, config), more, config)
    ensures id !in After(Next(w, e, config), more, config).stores.sessions
  {
    ReachableInv(w, config);
    var n := Next(w, e, config);
    if id in n.stores.sessions {
      NotRevoked(w.stores, e.request, e.at, config, id);
    }
    GoneStaysGone(n, more, config, id);
  }

  lemma LateAccess(t: Token, changed: Time, at: Time, config: Config)
    requires t.id != "" && t.subject != ""
    ensures var access := AccessToken(t.id, t.subject, at, config);
      && (forall now :: Validates(access, now) ==> now < at + config.accessTtl)
      && ((exists now :: now >= changed + config.accessTtl && Validates(access, now)) <==>
          changed + config.accessTtl < NumericDate(at + config.accessTtl))
  {
    var access, late := AccessToken(t.id, t.subject, at, config), changed + config.accessTtl;
    if late < access.expires {
      assert Validates(access, late);
    }
  }

  /** The same after a logout, for the one session whose refresh token was presented. */
  lemma LogoutIsFinal(w: World, e: Event, more: seq<Event>, config: Config, t: Token)
    requires Reachable(w, config) && Possible(w, e)
    requires e.request.Logout? && e.request.token.Some?
    requires e.request.token.value.audience == Refresh && e.at < e.request.token.value.expires
    requires PossibleRun(Next(w, e, config), more, config)
    requires t in After(Next(w, e, config), more, config).issued && t.id == e.request.token.value.id
    ensures forall now :: !Refreshes(After(Next(w, e, config), more, config).stores.sessions, t, now)
    ensures forall now :: now >= e.at + config.accessTtl ==> !Validates(t, now)
  {
    ReachableInv(w, config);
    var n := Next(w, e, config);
    GoneStaysGone(n, more, config, t.id);
    GoneIssuesNothing(n, more, config, t);
  }

  predicate RefreshOf(request: Request, id: string) {
    request.RefreshWith? && request.token.Some? && request.token.value.id == id
  }

  ghost predicate ExpireBy(w: World, id: string, deadline: Time) {
    id in w.used && forall t <- w.issued :: t.id == id && t.audience == Refresh ==> t.expires <= deadline
  }

  /** A session that nobody refreshes for `refreshTtl` is over: presented later, none of its refresh tokens is ever
      accepted again. */
  lemma {:induction false} IdleSessionEnds(w: World, run: seq<Event>, config: Config, id: string)
    requires Reachable(w, config) && id in w.used && PossibleRun(w, run, config)
    requires forall e <- run :: RefreshOf(e.request, id) ==> e.at >= w.clock + config.refreshTtl
    ensures ExpireBy(After(w, run, config), id, w.clock + config.refreshTtl)
    decreases |run|
  {
    ReachableInv(w, config);
    if run != [] {
      var before, e := After(w, run[..|run| - 1], config), run[|run| - 1];
      assert e in run;
      IdleSessionEnds(w, run[..|run| - 1], config, id);
      forall t | t in Issued(before.stores, e.request, e.at, config)
        ensures t.id != id
      {
        IssuedTokens(before.stores, e.request, e.at, config, t);
      }
    }
  }

  // ---------------------------------------------------------------- clean-up

  /** What two worlds share when only one of them cleans up: the extra sessions of `full` have expired. */
  ghost predicate SameButExpired(w: World, full: World) {
    && w.issued == full.issued && w.used == full.used && full.clock <= w.clock
    && SameRest(w.stores, full.stores)
    && SessionsButExpired(w.stores.sessions, full.stores.sessions, w.clock)
  }

  ghost predicate SameRest(a: Stores, b: Stores) {
    a.users == b.users && a.resets == b.resets && a.changes == b.changes
  }

  ghost predicate SessionsButExpired(some: map<string, Session>, all: map<string, Session>, clock: Time) {
    forall id :: SessionAlike(some, all, id, clock)
  }

  function WithoutCleanups(run: seq<Event>): seq<Event> {
    Filter(run, (e: Event) => !e.request.CleanupExpired?)
  }

  /** Whether the expired sessions are still stored makes no difference to what a token can do. */
  lemma SameRefreshes(w: World, full: World, config: Config, t: Token, now: Time)
    requires SameButExpired(w, full) && Inv(full, config) && t in full.issued && now >= w.clock
    ensures Refreshes(w.stores.sessions, t, now) <==> Refreshes(full.stores.sessions, t, now)
  {
    assert SessionAlike(w.stores.sessions, full.stores.sessions, t.id, w.clock);
  }

  lemma SameStep(w: World, full: World, e: Event, config: Config)
    requires SameButExpired(w, full) && Inv(full, config) && Possible(w, e) && !e.request.CleanupExpired?
    ensures Possible(full, e) && SameButExpired(Next(w, e, config), Next(full, e, config))
  {
    if e.request.RefreshWith? && e.request.token.Some? {
      SameRefreshes(w, full, config, e.request.token.value, e.at);
    }
    RestStep(w.stores, full.stores, e.request, e.at, config);
    SameIssue(w.stores, full.stores, e.request, e.at, config);
    SessionsStep(w.stores, full.stores, e.request, e.at, config, w.clock);
  }

  /** Two stores that differ in expired sessions only, and agree on a request's token. */
  ghost predicate Alike(some: Stores, all: Stores, request: Request, now: Time) {
    && SameRest(some, all)
    && !request.CleanupExpired?
    && (request.RefreshWith? && request.token.Some? ==>
         (Refreshes(some.sessions, request.token.value, now) <==> Refreshes(all.sessions, request.token.value, now)))
  }

  lemma RestStep(some: Stores, all: Stores, request: Request, now: Time, config: Config)
    requires Alike(some, all, request, now)
    ensures SameRest(Served(some, request, now, config), Served(all, request, now, config))
  {
  }

  lemma SameIssue(some: Stores, all: Stores, request: Request, now: Time, config: Config)
    requires Alike(some, all, request, now)
    ensures Issued(some, request, now, config) == Issued(all, request, now, config)
  {
  }

  ghost predicate SessionAlike(some: map<string, Session>, all: map<string, Session>, id: string, clock: Time) {
    if id in some then id in all && all[id] == some[id]
    else id in all ==> all[id].expires <= clock
  }

  lemma DropStep(some: map<string, Session>, all: map<string, Session>, email: string, keep: string, id: string, clock: Time)
    requires SessionAlike(some, all, id, clock)
    ensures SessionAlike(Without(some, email), Without(all, email), id, clock)
    ensures SessionAlike(WithoutOthers(some, email, keep), WithoutOthers(all, email, keep), id, clock)
  {
  }

  lemma ConfirmStep(some: Stores, all: Stores, change: string, now: Time, config: Config, id: string)
    requires Alike(some, all, ConfirmEmailChange(change), now) && SessionAlike(some.sessions, all.sessions, id, now)
    ensures SessionAlike(Served(some, ConfirmEmailChange(change), now, config).sessions, Served(all, ConfirmEmailChange(change), now, config).sessions, id, now)
  {
    if Confirms(some, change, now) {
      DropStep(some.sessions, all.sessions, some.changes[change].from, "", id, now);
    }
  }

  lemma SessionStep(some: Stores, all: Stores, request: Request, now: Time, config: Config, id: string)
    requires Alike(some, all, request, now) && SessionAlike(some.sessions, all.sessions, id, now)
    ensures SessionAlike(Served(some, request, now, config).sessions, Served(all, request, now, config).sessions, id, now)
  {
    match request {
      case ConfirmEmailChange(change) => ConfirmStep(some, all, change, now, config, id);
      case DeleteUser(email) => DropStep(some.sessions, all.sessions, email, "", id, now);
      case LogoutAll(email, current, _) => DropStep(some.sessions, all.sessions, email, current, id, now);
      case ChangePassword(email, _, _) => DropStep(some.sessions, all.sessions, email, "", id, now);
      case SetPasswordAdmin(email, _) => DropStep(some.sessions, all.sessions, email, "", id, now);
      case ResetPassword(grant, _) =>
        if Redeems(some, grant, now) {
          DropStep(some.sessions, all.sessions, some.resets[grant].email, "", id, now);
        }
      case _ =>
    }
  }

  lemma SessionsStep(some: Stores, all: Stores, request: Request, now: Time, config: Config, clock: Time)
    requires Alike(some, all, request, now)
    requires SessionsButExpired(some.sessions, all.sessions, clock) && clock <= now
    ensures SessionsButExpired(Served(some, request, now, config).sessions, Served(all, request, now, config).sessions, now)
  {
    forall id
      ensures SessionAlike(Served(some, request, now, config).sessions, Served(all, request, now, config).sessions, id, now)
    {
      assert SessionAlike(some.sessions, all.sessions, id, clock);
      SessionStep(some, all, request, now, config, id);
    }
  }

  lemma CleanupStep(w: World, full: World, e: Event, config: Config)
    requires SameButExpired(w, full) && Possible(w, e) && e.request.CleanupExpired?
    ensures SameButExpired(Next(w, e, config), full)
  {
    forall id
      ensures SessionAlike(Next(w, e, config).stores.sessions, full.stores.sessions, id, e.at)
    {
      assert SessionAlike(w.stores.sessions, full.stores.sessions, id, w.clock);
    }
  }

  /** Cleaning up expired sessions is invisible: with and without the clean-ups a run issues the same tokens, leaves
      the same users, and every token is accepted or refused alike. */
  lemma {:induction false} CleanupIsInvisible(start: World, run: seq<Event>, config: Config)
    requires Inv(start, config) && PossibleRun(start, run, config)
    ensures PossibleRun(start, WithoutCleanups(run), config)
    ensures SameButExpired(After(start, run, config), After(start, WithoutCleanups(run), config))
    ensures forall t, now :: t in After(start, run, config).issued && now >= After(start, run, config).clock ==>
      (Refreshes(After(start, run, config).stores.sessions, t, now)
       <==> Refreshes(After(start, WithoutCleanups(run), config).stores.sessions, t, now))
    decreases |run|
  {
    var kept := WithoutCleanups(run);
    if run != [] {
      var before, e := run[..|run| - 1], run[|run| - 1];
      CleanupIsInvisible(start, before, config);
      RunKeepsInv(start, WithoutCleanups(before), config);
      if e.request.CleanupExpired? {
        assert kept == WithoutCleanups(before);
        CleanupStep(After(start, before, config), After(start, kept, config), e, config);
      } else {
        assert kept == WithoutCleanups(before) + [e] && kept[..|kept| - 1] == WithoutCleanups(before);
        SameStep(After(start, before, config), After(start, WithoutCleanups(before), config), e, config);
      }
    }
    RunKeepsInv(start, kept, config);
    forall t, now | t in After(start, run, config).issued && now >= After(start, run, config).clock
      ensures Refreshes(After(start, run, config).stores.sessions, t, now) <==> Refreshes(After(start, kept, config).stores.sessions, t, now)
    {
      SameRefreshes(After(start, run, config), After(start, kept, config), config, t, now);
    }
  }
}
