/** The auth service and its repositories as an object that updates its tables step by step:
    backend/app/services/auth.py, services/user.py and repositories/user.py. */
module AuthService {
  import opened Wrappers
  import opened AuthTables
  import opened SessionTheorems

  lemma ClearingKeepsConsistent(t: Tables, u: UserId, c: Config, password: string)
    requires Consistent(t) && u in t.users
    ensures var after := t.(users := t.users[u := AfterSuccess(t.users[u], c, password)]);
            Consistent(after) && KeepsSessionsActive(t, after)
  {
  }

  lemma RevokingKeepsConsistent(t: Tables, j: Jti, now: int)
    requires Consistent(t) && j in t.tokens
    ensures var after := t.(tokens := t.tokens[j := Revoked(t.tokens[j], now)]);
            Consistent(after) && KeepsSessionsActive(t, after)
  {
  }

  class Service {
    const config: Config
    var users: map<UserId, User>
    var tokens: map<Jti, RefreshToken>
    var resets: map<ResetId, ResetToken>
    var nextUser: UserId
    var nextJti: Jti
    var nextReset: ResetId

    ghost function Now(): Tables
      reads this
    {
      Tables(users, tokens, resets, nextUser, nextJti, nextReset)
    }

    /** Identifiers are given out once, and of a user's reset links only the newest can still
        work. That only active users have live sessions is kept too, but nothing relies on it:
        a refresh checks again. */
    ghost predicate Valid()
      reads this
    {
      Consistent(Now())
    }

    constructor (config: Config)
      ensures Valid() && SessionsAreActive(Now()) && Now() == EMPTY && this.config == config
    {
      this.config := config;
      users, tokens, resets := map[], map[], map[];
      nextUser, nextJti, nextReset := 0, 0, 0;
    }

    // -------------------------------------------------------------------------
    // Repositories
    // -------------------------------------------------------------------------

    method GetActiveByJti(j: Jti, now: int) returns (found: Option<RefreshToken>)
      ensures found.Some? <==> TokenIsActive(Now(), j, now)
      ensures found.Some? ==> found.value == tokens[j]
    {
      if j in tokens && tokens[j].revokedAt.None? && tokens[j].expiresAt > now {
        return Some(tokens[j]);
      }
      return None;
    }

    method Revoke(j: Jti, now: int)
      requires j in tokens
      modifies this`tokens
      ensures tokens == old(tokens)[j := Revoked(old(tokens[j]), now)]
    {
      var token := tokens[j];
      if token.revokedAt.None? {
        tokens := tokens[j := token.(revokedAt := Some(now))];
      }
    }

    method RevokeAllForUser(u: UserId, now: int) returns (count: nat)
      modifies this`tokens
      ensures tokens == RevokedFor(old(tokens), u, now)
      ensures count == |set j | j in old(tokens) && old(tokens)[j].user == u && old(tokens)[j].revokedAt.None?|
    {
      var live := set j | j in tokens && tokens[j].user == u && tokens[j].revokedAt.None?;
      tokens := map j | j in tokens :: if j in live then tokens[j].(revokedAt := Some(now)) else tokens[j];
      count := |live|;
    }

    /** Deletes the tokens that expired before the cutoff and returns how many there were. No
        session that could still be refreshed at the cutoff or later is among them. */
    method PurgeExpired(cutoff: int) returns (count: nat)
      requires Valid()
      modifies this`tokens
      ensures Valid() && KeepsSessionsActive(old(Now()), Now()) && Now() == AfterPurge(old(Now()), cutoff)
      ensures count == |set j | j in old(tokens) && old(tokens)[j].expiresAt < cutoff|
      ensures forall j, now :: cutoff <= now ==> TokenIsActive(Now(), j, now) == old(TokenIsActive(Now(), j, now))
    {
      StepKeepsConsistent(Now(), Timed(Purge(Some(cutoff)), cutoff), config);
      var expired := set j | j in tokens && tokens[j].expiresAt < cutoff;
      tokens := tokens - expired;
      count := |expired|;
      assert expired == set j | j in old(tokens) && old(tokens)[j].expiresAt < cutoff;
    }

    method InvalidateForUser(u: UserId, now: int) returns (count: nat)
      modifies this`resets
      ensures resets == InvalidatedFor(old(resets), u, now)
      ensures count == |set r | r in old(resets) && old(resets)[r].user == u && old(resets)[r].usedAt.None?|
      ensures forall r: ResetId :: Unused(Now(), r) ==> resets[r].user != u
    {
      var open := set r | r in resets && resets[r].user == u && resets[r].usedAt.None?;
      resets := map r | r in resets :: if r in open then resets[r].(usedAt := Some(now)) else resets[r];
      count := |open|;
    }

    // -------------------------------------------------------------------------
    // Sessions
    // -------------------------------------------------------------------------

    /** One more session for the user, under an identifier no row has. */
    method IssueTokens(u: UserId, now: int) returns (j: Jti)
      requires Valid()
      modifies this`tokens, this`nextJti
      ensures Valid() && (IsActiveUser(Now(), u) ==> KeepsSessionsActive(old(Now()), Now()))
      ensures Now() == Issued(old(Now()), config, u, now) && j == old(nextJti)
      ensures j !in old(tokens) && Sessions(Now(), u) == old(Sessions(Now(), u)) + {j}
    {
      IssuingAddsASession(Now(), config, u, now);
      j := nextJti;
      tokens := tokens[j := RefreshToken(u, now + config.tokenLifetime, None)];
      nextJti := nextJti + 1;
    }

    method RegisterFailedAttempt(u: UserId, now: int)
      requires u in users
      modifies this`users
      ensures users == old(users)[u := AfterFailure(old(users[u]), config, now)]
    {
      users := users[u := users[u].(failures := users[u].failures + 1)];
      if users[u].failures >= config.maxFailures {
        users := users[u := users[u].(lockedUntil := Some(now + config.lockout))];
        users := users[u := users[u].(failures := 0)];
      }
    }

    /** What a correct password does to the account: unlock it, and upgrade the hash if due. */
    method ClearFailures(u: UserId, password: string)
      requires u in users
      modifies this`users
      ensures users == old(users)[u := AfterSuccess(old(users[u]), config, password)]
    {
      users := users[u := users[u].(failures := 0)];
      users := users[u := users[u].(lockedUntil := None)];
      if config.needsRehash(users[u].passwordHash) {
        users := users[u := users[u].(passwordHash := config.encode(password))];
      }
    }

    /** A successful login gives the user one more session and clears the failures; nothing
        else gives anyone a session. */
    method Authenticate(u: UserId, password: string, now: int) returns (result: Result<Jti, AuthError>)
      requires Valid()
      modifies this
      ensures Valid() && KeepsSessionsActive(old(Now()), Now())
      ensures result.Ok? ==>
                && result.value !in old(tokens) && Sessions(Now(), u) == old(Sessions(Now(), u)) + {result.value}
                && |Sessions(Now(), u)| == old(|Sessions(Now(), u)|) + 1
                && IsActiveUser(Now(), u) && users[u].failures == 0
      ensures result.Err? ==> tokens == old(tokens)
      ensures result == LoginOutcome(old(Now()), config, u, password, now)
      ensures Now() == AfterLogin(old(Now()), config, u, password, now)
    {
      ghost var before := Now();
      StepKeepsConsistent(before, Timed(Login(u, password), now), config);
      LoginAddsASession(before, config, u, password, now);
      hide Consistent, Sessions, KeepsSessionsActive, OthersKeepSessions, AfterFailure, AfterSuccess;
      if u !in users {
        return Err(InvalidCredentials);
      }
      if IsLocked(users[u], now) {
        return Err(AccountLocked);
      }
      if !config.verify(password, users[u].passwordHash) {
        RegisterFailedAttempt(u, now);
        return Err(InvalidCredentials);
      }
      if !users[u].active {
        return Err(InactiveUser);
      }
      ClearingKeepsConsistent(before, u, config, password);
      ClearFailures(u, password);
      assert Now() == before.(users := before.users[u := AfterSuccess(before.users[u], config, password)]);
      var j := IssueTokens(u, now);
      return Ok(j);
    }

    /** The token presented is never usable again; if it was good, its owner has another one
        instead and as many sessions as before. */
    method Refresh(j: Jti, now: int) returns (result: Result<Jti, AuthError>)
      requires Valid()
      modifies this
      ensures Valid() && KeepsSessionsActive(old(Now()), Now())
      ensures result.Ok? ==>
                j in old(tokens) &&
                var u := old(tokens)[j].user;
                && Dead(Now(), j) && Live(Now(), result.value) && result.value !in old(tokens)
                && tokens[result.value].user == u
                && |Sessions(Now(), u)| == old(|Sessions(Now(), u)|)
      ensures result == Err(BadToken) ==> Now() == old(Now())
      ensures result == Err(InactiveUser) ==> Dead(Now(), j)
      ensures result == RefreshOutcome(old(Now()), j, now)
      ensures Now() == AfterRefresh(old(Now()), config, j, now)
    {
      ghost var before := Now();
      StepKeepsConsistent(before, Timed(Event.Refresh(j), now), config);
      if RefreshOutcome(before, j, now).Ok? {
        RotationSwapsSessions(before, config, j, now);
        RevokingKeepsConsistent(before, j, now);
      }
      hide Sessions;
      var stored := GetActiveByJti(j, now);
      if stored.None? {
        return Err(BadToken);
      }
      var u := stored.value.user;
      if u !in users || !users[u].active {
        Revoke(j, now);
        return Err(InactiveUser);
      }
      Revoke(j, now);
      var renewed := IssueTokens(u, now);
      return Ok(renewed);
    }

    /** Returns how many sessions were revoked; logging out twice is not an error. Afterwards
        the user has no session, or the token presented is not one of the user's. */
    method Logout(u: UserId, token: Option<Jti>, everywhere: bool, now: int) returns (revoked: nat)
      requires Valid()
      modifies this`tokens
      ensures Valid() && KeepsSessionsActive(old(Now()), Now())
      ensures everywhere ==> Sessions(Now(), u) == {}
      ensures token.Some? ==> token.value !in Sessions(Now(), u)
      ensures Now() == AfterLogout(old(Now()), u, token, everywhere, now)
      ensures revoked == |set j | j in old(tokens) && old(tokens)[j].revokedAt.None? && tokens[j].revokedAt.Some?|
    {
      StepKeepsConsistent(Now(), Timed(Event.Logout(u, token, everywhere), now), config);
      revoked := 0;
      if everywhere {
        revoked := RevokeAllForUser(u, now);
        assert (set j | j in old(tokens) && old(tokens)[j].revokedAt.None? && tokens[j].revokedAt.Some?) ==
               (set j | j in old(tokens) && old(tokens)[j].user == u && old(tokens)[j].revokedAt.None?);
      } else if token.Some? && token.value in tokens {
        var j := token.value;
        if tokens[j].user == u && tokens[j].revokedAt.None? {
          Revoke(j, now);
          revoked := 1;
          assert (set i | i in old(tokens) && old(tokens)[i].revokedAt.None? && tokens[i].revokedAt.Some?) == {j};
        }
      }
    }

    // -------------------------------------------------------------------------
    // Passwords
    // -------------------------------------------------------------------------

    /** The new link, if the account exists and is active; no other link of it works then. */
    method RequestPasswordReset(u: UserId, now: int) returns (link: Option<ResetId>)
      requires Valid()
      modifies this`resets, this`nextReset
      ensures Valid() && KeepsSessionsActive(old(Now()), Now())
      ensures link.Some? ==>
                && link.value !in old(resets) && Unused(Now(), link.value)
                && forall r: ResetId :: Unused(Now(), r) && resets[r].user == u ==> r == link.value
      ensures Now() == AfterResetRequest(old(Now()), config, u, now)
      ensures link == if old(IsActiveUser(Now(), u)) then Some(old(nextReset)) else None
    {
      hide OnlyNewestWorks, KeepsSessionsActive, InvalidatedFor;
      StepKeepsConsistent(Now(), Timed(RequestReset(u), now), config);
      if u !in users || !users[u].active {
        return None;
      }
      NewLinkIsTheOnlyOne(Now(), config, u, now);
      var invalidated := InvalidateForUser(u, now);
      var r := nextReset;
      resets := resets[r := ResetToken(u, now + config.resetLifetime, None)];
      nextReset := nextReset + 1;
      return Some(r);
    }

    /** A good link sets the password once, unlocks the account and ends all its sessions. */
    method ResetPassword(r: ResetId, password: string, now: int) returns (result: Result<UserId, AuthError>)
      requires Valid()
      modifies this
      ensures Valid() && KeepsSessionsActive(old(Now()), Now())
      ensures result.Ok? ==>
                && Sessions(Now(), result.value) == {} && Spent(Now(), r)
                && result.value in users && !IsLocked(users[result.value], now)
                && users[result.value].passwordHash == config.encode(password)
      ensures result.Err? ==> Now() == old(Now())
      ensures result == ResetOutcome(old(Now()), r, now)
      ensures Now() == AfterReset(old(Now()), config, r, password, now)
    {
      hide OnlyNewestWorks, KeepsSessionsActive, Sessions, OthersKeepSessions, RevokedFor;
      ghost var before := Now();
      StepKeepsConsistent(before, Timed(Event.ResetPassword(r, password), now), config);
      if !(r in resets && resets[r].usedAt.None? && resets[r].expiresAt > now) {
        return Err(BadToken);
      }
      var u := resets[r].user;
      if u !in users || !users[u].active {
        return Err(InactiveUser);
      }
      users := users[u := users[u].(passwordHash := config.encode(password))];
      users := users[u := users[u].(failures := 0)];
      users := users[u := users[u].(lockedUntil := None)];
      resets := resets[r := resets[r].(usedAt := Some(now))];
      var count := RevokeAllForUser(u, now);
      RevokingEmptiesSessions(before, Now(), u, now);
      assert Now() == AfterReset(before, config, r, password, now);
      return Ok(u);
    }

    method ChangePassword(u: UserId, current: string, password: string, now: int)
      returns (result: Result<UserId, AuthError>)
      requires Valid()
      modifies this
      ensures Valid() && KeepsSessionsActive(old(Now()), Now())
      ensures result.Ok? ==> Sessions(Now(), u) == {} && u in users && users[u].passwordHash == config.encode(password)
      ensures result.Err? ==> Now() == old(Now())
      ensures result.Ok? <==> MayChangePassword(old(Now()), config, u, current)
      ensures Now() == AfterPasswordChange(old(Now()), config, u, current, password, now)
    {
      StepKeepsConsistent(Now(), Timed(Event.ChangePassword(u, current, password), now), config);
      if u !in users {
        return Err(NotFound);
      }
      if !config.verify(current, users[u].passwordHash) {
        return Err(InvalidCredentials);
      }
      users := users[u := users[u].(passwordHash := config.encode(password))];
      var count := RevokeAllForUser(u, now);
      return Ok(u);
    }

    // -------------------------------------------------------------------------
    // Accounts
    // -------------------------------------------------------------------------

    /** Whoever is set inactive has no session, and had none if inactive before. */
    method SetActive(u: UserId, active: bool, now: int) returns (result: Result<UserId, AuthError>)
      requires Valid()
      modifies this
      ensures Valid() && KeepsSessionsActive(old(Now()), Now())
      ensures result.Ok? && !active && old(SessionsAreActive(Now())) ==> Sessions(Now(), u) == {}
      ensures result.Ok? <==> u in old(users)
      ensures Now() == AfterSetActive(old(Now()), u, active, now)
    {
      StepKeepsConsistent(Now(), Timed(Event.SetActive(u, active), now), config);
      if u !in users {
        return Err(NotFound);
      }
      if !active && users[u].active {
        var count := RevokeAllForUser(u, now);
      }
      users := users[u := users[u].(active := active)];
      if !active && SessionsAreActive(Now()) {
        InactiveHaveNone(Now(), u);
      }
      return Ok(u);
    }

    method Register(passwordHash: string, active: bool) returns (u: UserId)
      requires Valid()
      modifies this`users, this`nextUser
      ensures Valid() && KeepsSessionsActive(old(Now()), Now()) && u !in old(users)
      ensures Now() == AfterRegister(old(Now()), passwordHash, active) && u == old(nextUser)
    {
      StepKeepsConsistent(Now(), Timed(Event.Register(passwordHash, active), 0), config);
      u := nextUser;
      users := users[u := User(passwordHash, active, 0, None)];
      nextUser := nextUser + 1;
    }

    method DeleteUser(u: UserId)
      requires Valid()
      modifies this`users, this`tokens, this`resets
      ensures Valid() && KeepsSessionsActive(old(Now()), Now()) && Sessions(Now(), u) == {}
      ensures Now() == AfterDeleteUser(old(Now()), u)
    {
      StepKeepsConsistent(Now(), Timed(Event.DeleteUser(u), 0), config);
      users := users - {u};
      tokens := map j | j in tokens && tokens[j].user != u :: tokens[j];
      resets := map r | r in resets && resets[r].user != u :: resets[r];
    }
  }
}
