/** The user, refresh-token and reset-token tables and what each call does to them, as
    functions: backend/app/services/auth.py, services/user.py and repositories/user.py. */
module AuthTables {
  import opened Wrappers

  type UserId = nat
  type Jti = nat
  type ResetId = nat

  datatype User = User(passwordHash: string, active: bool, failures: nat, lockedUntil: Option<int>)

  datatype RefreshToken = RefreshToken(user: UserId, expiresAt: int, revokedAt: Option<int>)

  datatype ResetToken = ResetToken(user: UserId, expiresAt: int, usedAt: Option<int>)

  datatype Tables = Tables(users: map<UserId, User>, tokens: map<Jti, RefreshToken>, resets: map<ResetId, ResetToken>,
                           nextUser: UserId, nextJti: Jti, nextReset: ResetId)

  const EMPTY := Tables(map[], map[], map[], 0, 0, 0)

  /** Settings, and the password functions: `verify(password, hash)`, `encode(password)` and
      whether a hash is due for an upgrade. */
  datatype Config = Config(maxFailures: nat, lockout: int, tokenLifetime: int, resetLifetime: int,
                           verify: (string, string) -> bool, encode: string -> string,
                           needsRehash: string -> bool)

  // ---------------------------------------------------------------------------
  // Rows
  // ---------------------------------------------------------------------------

  predicate IsLocked(user: User, now: int) { user.lockedUntil.Some? && user.lockedUntil.value > now }

  /** One more failure; the one that reaches the threshold locks and starts counting afresh. */
  function AfterFailure(user: User, c: Config, now: int): User {
    if user.failures + 1 >= c.maxFailures then user.(failures := 0, lockedUntil := Some(now + c.lockout))
    else user.(failures := user.failures + 1)
  }

  function AfterSuccess(user: User, c: Config, password: string): User {
    user.(failures := 0, lockedUntil := None,
          passwordHash := if c.needsRehash(user.passwordHash) then c.encode(password) else user.passwordHash)
  }

  function Revoked(token: RefreshToken, now: int): RefreshToken {
    if token.revokedAt.None? then token.(revokedAt := Some(now)) else token
  }

  /** `revoke_all_for_user`. */
  function RevokedFor(tokens: map<Jti, RefreshToken>, u: UserId, now: int): map<Jti, RefreshToken> {
    map j | j in tokens :: if tokens[j].user == u then Revoked(tokens[j], now) else tokens[j]
  }

  /** `invalidate_for_user`. */
  function InvalidatedFor(resets: map<ResetId, ResetToken>, u: UserId, now: int): map<ResetId, ResetToken> {
    map r | r in resets ::
      if resets[r].user == u && resets[r].usedAt.None? then resets[r].(usedAt := Some(now)) else resets[r]
  }

  /** Neither revoked nor expired: what `get_active_by_jti` finds. */
  predicate TokenIsActive(t: Tables, j: Jti, now: int) {
    j in t.tokens && t.tokens[j].revokedAt.None? && t.tokens[j].expiresAt > now
  }

  predicate ResetIsActive(t: Tables, r: ResetId, now: int) {
    r in t.resets && t.resets[r].usedAt.None? && t.resets[r].expiresAt > now
  }

  predicate IsActiveUser(t: Tables, u: UserId) { u in t.users && t.users[u].active }

  // ---------------------------------------------------------------------------
  // Calls
  // ---------------------------------------------------------------------------

  datatype AuthError = InvalidCredentials | AccountLocked | InactiveUser | BadToken | NotFound

  function Issued(t: Tables, c: Config, u: UserId, now: int): Tables {
    t.(tokens := t.tokens[t.nextJti := RefreshToken(u, now + c.tokenLifetime, None)], nextJti := t.nextJti + 1)
  }

  /** The checks of `authenticate`, in their order; on success the new token. */
  function LoginOutcome(t: Tables, c: Config, u: UserId, password: string, now: int): Result<Jti, AuthError> {
    if u !in t.users then Err(InvalidCredentials)
    else if IsLocked(t.users[u], now) then Err(AccountLocked)
    else if !c.verify(password, t.users[u].passwordHash) then Err(InvalidCredentials)
    else if !t.users[u].active then Err(InactiveUser)
    else Ok(t.nextJti)
  }

  /** A wrong password was compared with the stored one. */
  predicate IsWrongGuess(t: Tables, c: Config, u: UserId, password: string, now: int) {
    u in t.users && !IsLocked(t.users[u], now) && !c.verify(password, t.users[u].passwordHash)
  }

  function AfterLogin(t: Tables, c: Config, u: UserId, password: string, now: int): Tables {
    if IsWrongGuess(t, c, u, password, now) then t.(users := t.users[u := AfterFailure(t.users[u], c, now)])
    else if u in t.users && LoginOutcome(t, c, u, password, now).Ok? then
      Issued(t.(users := t.users[u := AfterSuccess(t.users[u], c, password)]), c, u, now)
    else t
  }

  function RefreshOutcome(t: Tables, j: Jti, now: int): Result<Jti, AuthError> {
    if !TokenIsActive(t, j, now) then Err(BadToken)
    else if !IsActiveUser(t, t.tokens[j].user) then Err(InactiveUser)
    else Ok(t.nextJti)
  }

  function AfterRefresh(t: Tables, c: Config, j: Jti, now: int): Tables {
    if !TokenIsActive(t, j, now) then t
    else
      var revoked := t.(tokens := t.tokens[j := Revoked(t.tokens[j], now)]);
      if IsActiveUser(t, t.tokens[j].user) then Issued(revoked, c, t.tokens[j].user, now) else revoked
  }

  /** What a client hands in at logout: a token that decodes to a jti, or none that does. */
  function AfterLogout(t: Tables, u: UserId, token: Option<Jti>, everywhere: bool, now: int): Tables {
    if everywhere then t.(tokens := RevokedFor(t.tokens, u, now))
    else if token.Some? && token.value in t.tokens && t.tokens[token.value].user == u then
      t.(tokens := t.tokens[token.value := Revoked(t.tokens[token.value], now)])
    else t
  }

  function AfterResetRequest(t: Tables, c: Config, u: UserId, now: int): Tables {
    if !IsActiveUser(t, u) then t
    else t.(resets := InvalidatedFor(t.resets, u, now)[t.nextReset := ResetToken(u, now + c.resetLifetime, None)],
            nextReset := t.nextReset + 1)
  }

  function ResetOutcome(t: Tables, r: ResetId, now: int): Result<UserId, AuthError> {
    if !ResetIsActive(t, r, now) then Err(BadToken)
    else if !IsActiveUser(t, t.resets[r].user) then Err(InactiveUser)
    else Ok(t.resets[r].user)
  }

  function AfterReset(t: Tables, c: Config, r: ResetId, password: string, now: int): Tables {
    if ResetOutcome(t, r, now).Err? then t
    else
      var u := t.resets[r].user;
      t.(users := t.users[u := t.users[u].(passwordHash := c.encode(password), failures := 0, lockedUntil := None)],
         resets := t.resets[r := t.resets[r].(usedAt := Some(now))],
         tokens := RevokedFor(t.tokens, u, now))
  }

  predicate MayChangePassword(t: Tables, c: Config, u: UserId, current: string) {
    u in t.users && c.verify(current, t.users[u].passwordHash)
  }

  function AfterPasswordChange(t: Tables, c: Config, u: UserId, current: string, password: string, now: int): Tables {
    if !MayChangePassword(t, c, u, current) then t
    else t.(users := t.users[u := t.users[u].(passwordHash := c.encode(password))],
            tokens := RevokedFor(t.tokens, u, now))
  }

  /** `UserService.update` of the `is_active` flag. */
  function AfterSetActive(t: Tables, u: UserId, active: bool, now: int): Tables {
    if u !in t.users then t
    else t.(users := t.users[u := t.users[u].(active := active)],
            tokens := if !active && t.users[u].active then RevokedFor(t.tokens, u, now) else t.tokens)
  }

  function AfterRegister(t: Tables, passwordHash: string, active: bool): Tables {
    t.(users := t.users[t.nextUser := User(passwordHash, active, 0, None)], nextUser := t.nextUser + 1)
  }

  /** Deleting a user takes its tokens along. */
  function AfterDeleteUser(t: Tables, u: UserId): Tables {
    t.(users := t.users - {u},
       tokens := map j | j in t.tokens && t.tokens[j].user != u :: t.tokens[j],
       resets := map r | r in t.resets && t.resets[r].user != u :: t.resets[r])
  }

  /** `purge_expired`. */
  function AfterPurge(t: Tables, cutoff: int): Tables {
    t.(tokens := map j | j in t.tokens && t.tokens[j].expiresAt >= cutoff :: t.tokens[j])
  }

  // ---------------------------------------------------------------------------
  // Runs
  // ---------------------------------------------------------------------------

  datatype Event =
    | Register(passwordHash: string, active: bool)
    | Login(user: UserId, password: string)
    | Refresh(jti: Jti)
    | Logout(user: UserId, token: Option<Jti>, everywhere: bool)
    | RequestReset(user: UserId)
    | ResetPassword(reset: ResetId, password: string)
    | ChangePassword(user: UserId, current: string, password: string)
    | SetActive(user: UserId, active: bool)
    | DeleteUser(user: UserId)
    | Purge(before: Option<int>)

  /** An event and the time the service reads from the clock while it handles it. */
  datatype Timed = Timed(event: Event, now: int)

  function Apply(t: Tables, e: Timed, c: Config): Tables {
    match e.event
    case Register(hash, active) => AfterRegister(t, hash, active)
    case Login(u, password) => AfterLogin(t, c, u, password, e.now)
    case Refresh(j) => AfterRefresh(t, c, j, e.now)
    case Logout(u, token, everywhere) => AfterLogout(t, u, token, everywhere, e.now)
    case RequestReset(u) => AfterResetRequest(t, c, u, e.now)
    case ResetPassword(r, password) => AfterReset(t, c, r, password, e.now)
    case ChangePassword(u, current, password) => AfterPasswordChange(t, c, u, current, password, e.now)
    case SetActive(u, active) => AfterSetActive(t, u, active, e.now)
    case DeleteUser(u) => AfterDeleteUser(t, u)
    case Purge(before) => AfterPurge(t, if before.Some? then before.value else e.now)
  }

  function Run(t: Tables, events: seq<Timed>, c: Config): Tables {
    if events == [] then t
    else Apply(Run(t, events[..|events| - 1], c), events[|events| - 1], c)
  }
}
