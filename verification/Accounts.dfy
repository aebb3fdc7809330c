/** What an account holder can count on: which password opens an account, for how long a wrong
    one closes it, and for how long tokens and links work. backend/app/services/auth.py and
    services/user.py. */
module Accounts {
  import opened Wrappers
  import opened AuthTables

  /** The account exists, is active and not locked at this time. */
  predicate Ready(t: Tables, u: UserId, now: int) {
    && u in t.users && t.users[u].active
    && (t.users[u].lockedUntil.None? || t.users[u].lockedUntil.value <= now)
  }

  /** The five answers to a login: no such account, a lock that has not run out, a password that
      does not match, an inactive account, or else a new session. */
  lemma LoginAnswers(t: Tables, c: Config, u: UserId, password: string, now: int)
    ensures var outcome := LoginOutcome(t, c, u, password, now);
            var locked := u in t.users && t.users[u].lockedUntil.Some? && now < t.users[u].lockedUntil.value;
            var matches := u in t.users && c.verify(password, t.users[u].passwordHash);
            && (outcome == Err(AccountLocked) <==> locked)
            && (outcome == Err(InvalidCredentials) <==> !locked && !matches)
            && (outcome == Err(InactiveUser) <==> !locked && matches && !t.users[u].active)
            && (outcome.Ok? <==> Ready(t, u, now) && matches)
            && (outcome.Ok? ==> outcome.value == t.nextJti)
  {
  }

  /** The wrong password that makes the count reach the threshold locks the account for exactly
      the lockout period, even for the right password, and the count starts afresh; one before
      that only counts. Nobody else notices. */
  lemma WrongPasswordLocks(t: Tables, c: Config, u: UserId, wrong: string, now: int, right: string, later: int)
    requires u in t.users && !c.verify(wrong, t.users[u].passwordHash)
    requires t.users[u].lockedUntil.None? || t.users[u].lockedUntil.value <= now
    ensures var after := AfterLogin(t, c, u, wrong, now);
            && after == t.(users := after.users) && after.users.Keys == t.users.Keys
            && (forall v :: v in t.users && v != u ==> after.users[v] == t.users[v])
            && (t.users[u].failures + 1 < c.maxFailures ==>
                  after.users[u] == t.users[u].(failures := t.users[u].failures + 1))
            && (t.users[u].failures + 1 >= c.maxFailures ==>
                  && after.users[u].failures == 0
                  && (LoginOutcome(after, c, u, right, later) == Err(AccountLocked) <==> later < now + c.lockout)
                  && (later >= now + c.lockout && t.users[u].active ==>
                        (LoginOutcome(after, c, u, right, later).Ok? <==> c.verify(right, t.users[u].passwordHash))))
  {
  }

  /** The right password clears count and lock and gives a session that can be refreshed for
      exactly its lifetime; a hash that is due for an upgrade is replaced by one of the same
      password, any other stays. */
  lemma RightPasswordOpens(t: Tables, c: Config, u: UserId, password: string, now: int, later: int)
    requires Ready(t, u, now) && c.verify(password, t.users[u].passwordHash)
    ensures var after := AfterLogin(t, c, u, password, now);
            && after.users.Keys == t.users.Keys && (forall v :: v in t.users && v != u ==> after.users[v] == t.users[v])
            && after.users[u] == User(if c.needsRehash(t.users[u].passwordHash) then c.encode(password)
                                      else t.users[u].passwordHash, true, 0, None)
            && (forall j :: j in t.tokens && j != t.nextJti ==> j in after.tokens && after.tokens[j] == t.tokens[j])
            && after.resets == t.resets
            && (RefreshOutcome(after, t.nextJti, later).Ok? <==> later < now + c.tokenLifetime)
  {
  }

  /** A refresh before the token runs out gives a token that again lasts its whole lifetime; the
      one presented is refused from then on. */
  lemma RefreshRenews(t: Tables, c: Config, j: Jti, now: int, later: int)
    requires j in t.tokens && t.tokens[j].revokedAt.None? && now < t.tokens[j].expiresAt
    requires t.tokens[j].user in t.users && t.users[t.tokens[j].user].active && j < t.nextJti
    ensures var after := AfterRefresh(t, c, j, now);
            && RefreshOutcome(t, j, now) == Ok(t.nextJti)
            && after.users == t.users && after.resets == t.resets
            && RefreshOutcome(after, j, later) == Err(BadToken)
            && (RefreshOutcome(after, t.nextJti, later).Ok? <==> later < now + c.tokenLifetime)
            && after.tokens[t.nextJti].user == t.tokens[j].user
            && after.tokens[j] == t.tokens[j].(revokedAt := Some(now))
  {
  }

  /** A token that ran out, was revoked or never existed is refused and changes nothing. */
  lemma StaleTokenIsRefused(t: Tables, c: Config, j: Jti, now: int)
    requires j in t.tokens ==> t.tokens[j].revokedAt.Some? || t.tokens[j].expiresAt <= now
    ensures RefreshOutcome(t, j, now) == Err(BadToken) && AfterRefresh(t, c, j, now) == t
  {
  }

  /** A reset link of an active account works from the moment it is sent for exactly its
      lifetime, and all earlier links of that account are dead. */
  lemma ResetLinkWorks(t: Tables, c: Config, u: UserId, now: int, later: int)
    requires u in t.users && t.users[u].active
    ensures var after := AfterResetRequest(t, c, u, now);
            && after.users == t.users && after.tokens == t.tokens
            && (ResetOutcome(after, t.nextReset, later) == Ok(u) <==> later < now + c.resetLifetime)
            && (forall r :: r in t.resets && r != t.nextReset && t.resets[r].user == u ==>
                  ResetOutcome(after, r, later) == Err(BadToken))
            && (forall r :: r in t.resets && r != t.nextReset && t.resets[r].user != u ==> after.resets[r] == t.resets[r])
  {
  }

  /** No link is sent to an account that does not exist or is inactive. */
  lemma NoLinkForOthers(t: Tables, c: Config, u: UserId, now: int)
    requires !(u in t.users && t.users[u].active)
    ensures AfterResetRequest(t, c, u, now) == t
  {
  }

  /** After a reset exactly the new password opens the account, at once and whatever locked it
      before; the link is spent, and every session of the account is over. */
  lemma ResetPasswordOpens(t: Tables, c: Config, r: ResetId, password: string, now: int, tried: string, later: int)
    requires r in t.resets && t.resets[r].usedAt.None? && now < t.resets[r].expiresAt
    requires t.resets[r].user in t.users && t.users[t.resets[r].user].active
    ensures var u, after := t.resets[r].user, AfterReset(t, c, r, password, now);
            && ResetOutcome(t, r, now) == Ok(u)
            && (LoginOutcome(after, c, u, tried, later).Ok? <==> c.verify(tried, c.encode(password)))
            && ResetOutcome(after, r, later) == Err(BadToken)
            && (forall j :: j in t.tokens && t.tokens[j].user == u ==> RefreshOutcome(after, j, later) == Err(BadToken))
            && (forall v :: v in t.users && v != u ==> after.users[v] == t.users[v])
            && (forall j :: j in t.tokens && t.tokens[j].user != u ==> after.tokens[j] == t.tokens[j])
            && (forall s :: s in t.resets && s != r ==> after.resets[s] == t.resets[s])
  {
  }

  /** A link that was used, ran out or never existed changes nothing. */
  lemma StaleLinkIsRefused(t: Tables, c: Config, r: ResetId, password: string, now: int)
    requires r in t.resets ==> t.resets[r].usedAt.Some? || t.resets[r].expiresAt <= now
    ensures ResetOutcome(t, r, now) == Err(BadToken) && AfterReset(t, c, r, password, now) == t
  {
  }

  /** Changing the password takes the current one; afterwards exactly the new one opens the
      account, unless it is locked, and every session of it is over. */
  lemma ChangedPasswordOpens(t: Tables, c: Config, u: UserId, current: string, password: string, now: int,
                             tried: string, later: int)
    requires u in t.users
    ensures var after := AfterPasswordChange(t, c, u, current, password, now);
            if c.verify(current, t.users[u].passwordHash) then
              && (Ready(t, u, later) ==>
                    (LoginOutcome(after, c, u, tried, later).Ok? <==> c.verify(tried, c.encode(password))))
              && after.users[u].failures == t.users[u].failures && after.users[u].lockedUntil == t.users[u].lockedUntil
              && (forall j :: j in t.tokens && t.tokens[j].user == u ==> RefreshOutcome(after, j, later) == Err(BadToken))
              && (forall v :: v in t.users && v != u ==> after.users[v] == t.users[v])
              && (forall j :: j in t.tokens && t.tokens[j].user != u ==> after.tokens[j] == t.tokens[j])
            else after == t
  {
  }

  /** A new account can be opened with the password its hash was made of, if it is active. */
  lemma NewAccountOpens(t: Tables, c: Config, password: string, active: bool, tried: string, later: int)
    ensures var after := AfterRegister(t, c.encode(password), active);
            && (LoginOutcome(after, c, t.nextUser, tried, later).Ok? <==> active && c.verify(tried, c.encode(password)))
            && (forall v :: v in t.users && v != t.nextUser ==> v in after.users && after.users[v] == t.users[v])
  {
  }

  /** Deactivating closes an account until it is activated again; its sessions do not come back. */
  lemma DeactivatingCloses(t: Tables, c: Config, u: UserId, now: int, tried: string, later: int)
    requires u in t.users && t.users[u].active
    ensures var off := AfterSetActive(t, u, false, now);
            var on := AfterSetActive(off, u, true, later);
            && LoginOutcome(off, c, u, tried, later).Err? && on.users == t.users
            && forall j :: j in t.tokens && t.tokens[j].user == u ==> RefreshOutcome(on, j, later) == Err(BadToken)
  {
  }

  /** Logging out ends the session presented, if it is the user's own, or all of the user's;
      everybody else's go on. */
  lemma LogoutEndsSessions(t: Tables, u: UserId, token: Option<Jti>, everywhere: bool, now: int, j: Jti, later: int)
    requires j in t.tokens
    ensures var after := AfterLogout(t, u, token, everywhere, now);
            && after.users == t.users && after.resets == t.resets && after.tokens.Keys == t.tokens.Keys
            && (if t.tokens[j].user == u && (everywhere || token == Some(j))
                then RefreshOutcome(after, j, later) == Err(BadToken) else after.tokens[j] == t.tokens[j])
  {
  }

  /** Purging drops exactly the tokens that ran out before the cutoff. */
  lemma PurgeDropsTheExpired(t: Tables, cutoff: int, j: Jti)
    ensures var after := AfterPurge(t, cutoff);
            && after.users == t.users && after.resets == t.resets
            && (j in after.tokens <==> j in t.tokens && cutoff <= t.tokens[j].expiresAt)
            && (j in after.tokens ==> after.tokens[j] == t.tokens[j])
  {
  }

  /** A deleted account takes its sessions and links along, and nothing else. */
  lemma DeletingTakesAll(t: Tables, u: UserId)
    ensures var after := AfterDeleteUser(t, u);
            && (forall v :: v in after.users <==> v in t.users && v != u)
            && (forall j :: j in after.tokens <==> j in t.tokens && t.tokens[j].user != u)
            && (forall r :: r in after.resets <==> r in t.resets && t.resets[r].user != u)
            && (forall v :: v in after.users ==> after.users[v] == t.users[v])
            && (forall j :: j in after.tokens ==> after.tokens[j] == t.tokens[j])
            && (forall r :: r in after.resets ==> after.resets[r] == t.resets[r])
  {
  }
}
