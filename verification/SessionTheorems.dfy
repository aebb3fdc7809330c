/** What holds of refresh and reset tokens over every run of the auth service:
    backend/app/services/auth.py, services/user.py and repositories/user.py. */
module SessionTheorems {
  import opened Wrappers
  import opened Sets
  import opened AuthTables

  // ---------------------------------------------------------------------------
  // A token that is dead stays dead
  // ---------------------------------------------------------------------------

  /** Every row has an identifier that was given out. */
  ghost predicate Numbered(t: Tables) {
    && (forall j :: j in t.tokens ==> j < t.nextJti)
    && (forall r :: r in t.resets ==> r < t.nextReset)
    && (forall u :: u in t.users ==> u < t.nextUser)
  }

  predicate Live(t: Tables, j: Jti) { j in t.tokens && t.tokens[j].revokedAt.None? }

  /** Given out once, and since then revoked or purged. */
  predicate Dead(t: Tables, j: Jti) { j < t.nextJti && !Live(t, j) }

  predicate Unused(t: Tables, r: ResetId) { r in t.resets && t.resets[r].usedAt.None? }

  predicate Spent(t: Tables, r: ResetId) { r < t.nextReset && !Unused(t, r) }

  lemma StepNumbersTokens(t: Tables, e: Timed, c: Config)
    requires forall j :: j in t.tokens ==> j < t.nextJti
    ensures t.nextJti <= Apply(t, e, c).nextJti
    ensures forall j :: j in Apply(t, e, c).tokens ==> j < Apply(t, e, c).nextJti
  {
  }

  lemma StepNumbersResets(t: Tables, e: Timed, c: Config)
    requires forall r :: r in t.resets ==> r < t.nextReset
    ensures t.nextReset <= Apply(t, e, c).nextReset
    ensures forall r :: r in Apply(t, e, c).resets ==> r < Apply(t, e, c).nextReset
  {
    hide RevokedFor, Revoked, AfterSuccess, AfterFailure, LoginOutcome, RefreshOutcome;
  }

  lemma StepNumbersUsers(t: Tables, e: Timed, c: Config)
    requires forall u :: u in t.users ==> u < t.nextUser
    ensures t.nextUser <= Apply(t, e, c).nextUser
    ensures forall u :: u in Apply(t, e, c).users ==> u < Apply(t, e, c).nextUser
  {
    hide AfterSuccess, AfterFailure, LoginOutcome, InvalidatedFor, RevokedFor, Revoked;
  }

  lemma StepKeepsNumbered(t: Tables, e: Timed, c: Config)
    requires Numbered(t)
    ensures Numbered(Apply(t, e, c))
    ensures t.nextJti <= Apply(t, e, c).nextJti && t.nextReset <= Apply(t, e, c).nextReset
    ensures t.nextUser <= Apply(t, e, c).nextUser
  {
    hide Apply;
    StepNumbersTokens(t, e, c);
    StepNumbersResets(t, e, c);
    StepNumbersUsers(t, e, c);
  }

  lemma {:induction false} RunKeepsNumbered(t: Tables, events: seq<Timed>, c: Config)
    requires Numbered(t)
    ensures Numbered(Run(t, events, c))
  {
    if events != [] {
      RunKeepsNumbered(t, events[..|events| - 1], c);
      StepKeepsNumbered(Run(t, events[..|events| - 1], c), events[|events| - 1], c);
    }
  }

  lemma DeadStaysDead(t: Tables, e: Timed, c: Config, j: Jti)
    requires Dead(t, j)
    ensures Dead(Apply(t, e, c), j)
  {
  }

  lemma SpentStaysSpent(t: Tables, e: Timed, c: Config, r: ResetId)
    requires Spent(t, r)
    ensures Spent(Apply(t, e, c), r)
  {
  }

  /** The event redeems the refresh token: it answers with a new one. */
  predicate Redeems(t: Tables, e: Timed, j: Jti) {
    e.event == Refresh(j) && RefreshOutcome(t, j, e.now).Ok?
  }

  /** The event sets a new password by means of the reset token. */
  predicate Consumes(t: Tables, e: Timed, r: ResetId) {
    e.event.ResetPassword? && e.event.reset == r && ResetOutcome(t, r, e.now).Ok?
  }

  lemma RedeemingKills(t: Tables, e: Timed, c: Config, j: Jti)
    requires Numbered(t) && Redeems(t, e, j)
    ensures Live(t, j) && Dead(Apply(t, e, c), j)
  {
  }

  lemma ConsumingSpends(t: Tables, e: Timed, c: Config, r: ResetId)
    requires Numbered(t) && Consumes(t, e, r)
    ensures Unused(t, r) && Spent(Apply(t, e, c), r)
  {
  }

  lemma {:induction false} DeadThroughout(events: seq<Timed>, c: Config, i: nat, k: nat, j: Jti)
    requires i <= k <= |events| && Dead(Run(EMPTY, events[..i], c), j)
    ensures Dead(Run(EMPTY, events[..k], c), j)
    decreases k
  {
    if i < k {
      DeadThroughout(events, c, i, k - 1, j);
      assert events[..k][..k - 1] == events[..k - 1];
      DeadStaysDead(Run(EMPTY, events[..k - 1], c), events[k - 1], c, j);
    }
  }

  lemma {:induction false} SpentThroughout(events: seq<Timed>, c: Config, i: nat, k: nat, r: ResetId)
    requires i <= k <= |events| && Spent(Run(EMPTY, events[..i], c), r)
    ensures Spent(Run(EMPTY, events[..k], c), r)
    decreases k
  {
    if i < k {
      SpentThroughout(events, c, i, k - 1, r);
      assert events[..k][..k - 1] == events[..k - 1];
      SpentStaysSpent(Run(EMPTY, events[..k - 1], c), events[k - 1], c, r);
    }
  }

  /** Over any run a refresh token is redeemed at most once. */
  lemma RedeemedAtMostOnce(events: seq<Timed>, c: Config, i: nat, k: nat, j: Jti)
    requires i < |events| && k < |events|
    requires Redeems(Run(EMPTY, events[..i], c), events[i], j)
    requires Redeems(Run(EMPTY, events[..k], c), events[k], j)
    ensures i == k
  {
    NotRedeemedLater(events, c, i, k, j);
    NotRedeemedLater(events, c, k, i, j);
  }

  lemma NotRedeemedLater(events: seq<Timed>, c: Config, i: nat, k: nat, j: Jti)
    requires i < |events| && k < |events| && Redeems(Run(EMPTY, events[..i], c), events[i], j)
    ensures i < k ==> !Redeems(Run(EMPTY, events[..k], c), events[k], j)
  {
    if i < k {
      RunKeepsNumbered(EMPTY, events[..i], c);
      RedeemingKills(Run(EMPTY, events[..i], c), events[i], c, j);
      assert events[..i + 1][..i] == events[..i];
      DeadThroughout(events, c, i + 1, k, j);
    }
  }

  /** Over any run a reset link sets a password at most once. */
  lemma ConsumedAtMostOnce(events: seq<Timed>, c: Config, i: nat, k: nat, r: ResetId)
    requires i < |events| && k < |events|
    requires Consumes(Run(EMPTY, events[..i], c), events[i], r)
    requires Consumes(Run(EMPTY, events[..k], c), events[k], r)
    ensures i == k
  {
    NotConsumedLater(events, c, i, k, r);
    NotConsumedLater(events, c, k, i, r);
  }

  lemma NotConsumedLater(events: seq<Timed>, c: Config, i: nat, k: nat, r: ResetId)
    requires i < |events| && k < |events| && Consumes(Run(EMPTY, events[..i], c), events[i], r)
    ensures i < k ==> !Consumes(Run(EMPTY, events[..k], c), events[k], r)
  {
    if i < k {
      RunKeepsNumbered(EMPTY, events[..i], c);
      ConsumingSpends(Run(EMPTY, events[..i], c), events[i], c, r);
      assert events[..i + 1][..i] == events[..i];
      SpentThroughout(events, c, i + 1, k, r);
    }
  }

  // ---------------------------------------------------------------------------
  // Sessions descend from logins
  // ---------------------------------------------------------------------------

  /** The tables, the token each rotation replaced, and per user the tokens issued by logins
      since all of that user's sessions were last revoked. */
  datatype Ledger = Ledger(t: Tables, parent: map<Jti, Jti>, logins: map<UserId, set<Jti>>)

  function LoginsOf(l: Ledger, u: UserId): set<Jti> { if u in l.logins then l.logins[u] else {} }

  /** The user whose sessions the call revokes, if it revokes any user's. */
  function Evicted(t: Tables, e: Timed, c: Config): Option<UserId> {
    match e.event
    case Logout(v, _, everywhere) => if everywhere then Some(v) else None
    case ResetPassword(r, _) =>
      var outcome := ResetOutcome(t, r, e.now);
      if outcome.Ok? then Some(outcome.value) else None
    case ChangePassword(v, current, _) => if MayChangePassword(t, c, v, current) then Some(v) else None
    case SetActive(v, active) => if v in t.users && t.users[v].active && !active then Some(v) else None
    case DeleteUser(v) => Some(v)
    case _ => None
  }

  function Track(l: Ledger, e: Timed, c: Config): Ledger {
    var after := Apply(l.t, e, c);
    var evicted := Evicted(l.t, e, c);
    if e.event.Login? && LoginOutcome(l.t, c, e.event.user, e.event.password, e.now).Ok? then
      Ledger(after, l.parent, l.logins[e.event.user := LoginsOf(l, e.event.user) + {l.t.nextJti}])
    else if e.event.Refresh? && RefreshOutcome(l.t, e.event.jti, e.now).Ok? then
      Ledger(after, l.parent[l.t.nextJti := e.event.jti], l.logins)
    else if evicted.Some? then Ledger(after, l.parent, l.logins[evicted.value := {}])
    else l.(t := after)
  }

  function History(events: seq<Timed>, c: Config): Ledger {
    if events == [] then Ledger(EMPTY, map[], map[])
    else Track(History(events[..|events| - 1], c), events[|events| - 1], c)
  }

  lemma {:induction false} HistoryRunsTheTables(events: seq<Timed>, c: Config)
    ensures History(events, c).t == Run(EMPTY, events, c)
  {
    if events != [] {
      HistoryRunsTheTables(events[..|events| - 1], c);
    }
  }

  /** Where the chain of rotations a token ends started. */
  function Root(parent: map<Jti, Jti>, j: Jti): Jti
    decreases j
  {
    if j in parent && parent[j] < j then Root(parent, parent[j]) else j
  }

  lemma {:induction false} RootIsSettled(parent: map<Jti, Jti>, j: Jti, n: Jti, p: Jti)
    requires j < n
    ensures Root(parent[n := p], j) == Root(parent, j)
    decreases j
  {
    if j in parent && parent[j] < j {
      RootIsSettled(parent, parent[j], n, p);
    }
  }

  ghost predicate Rooted(l: Ledger, j: Jti)
    requires j in l.t.tokens
  {
    Root(l.parent, j) in LoginsOf(l, l.t.tokens[j].user)
  }

  /** Every live token descends from a login since its user's last eviction, no two from the
      same one. */
  ghost predicate Descends(l: Ledger) {
    && (forall j :: Live(l.t, j) ==> Rooted(l, j))
    && (forall j, k :: Live(l.t, j) && Live(l.t, k) && Root(l.parent, j) == Root(l.parent, k) ==> j == k)
  }

  ghost predicate Ordered(l: Ledger) {
    && Numbered(l.t)
    && (forall j :: j in l.parent ==> j < l.t.nextJti && l.parent[j] < j)
    && (forall u, j :: u in l.logins && j in l.logins[u] ==> j < l.t.nextJti)
  }

  lemma {:induction false} RootIsOlder(parent: map<Jti, Jti>, j: Jti)
    ensures Root(parent, j) <= j
    decreases j
  {
    if j in parent && parent[j] < j {
      RootIsOlder(parent, parent[j]);
    }
  }

  /** Nothing comes alive, and nobody's live token changes hands. */
  ghost predicate Shrinks(t: Tables, after: Tables) {
    forall j :: Live(after, j) ==> Live(t, j) && after.tokens[j].user == t.tokens[j].user
  }

  lemma ShrinkingKeepsDescent(l: Ledger, after: Ledger)
    requires Descends(l) && after.parent == l.parent && Shrinks(l.t, after.t)
    requires forall j :: Live(after.t, j) ==>
               LoginsOf(l, after.t.tokens[j].user) <= LoginsOf(after, after.t.tokens[j].user)
    ensures Descends(after)
  {
    forall j | Live(after.t, j) ensures Rooted(after, j) {
      assert Rooted(l, j);
    }
  }

  lemma EvictionKills(t: Tables, e: Timed, c: Config)
    requires Evicted(t, e, c).Some?
    ensures Shrinks(t, Apply(t, e, c))
    ensures forall j :: Live(Apply(t, e, c), j) ==> Apply(t, e, c).tokens[j].user != Evicted(t, e, c).value
  {
  }

  predicate IsLogin(t: Tables, e: Timed, c: Config) {
    e.event.Login? && LoginOutcome(t, c, e.event.user, e.event.password, e.now).Ok?
  }

  predicate IsRotation(t: Tables, e: Timed) {
    e.event.Refresh? && RefreshOutcome(t, e.event.jti, e.now).Ok?
  }

  lemma OthersShrink(t: Tables, e: Timed, c: Config)
    requires !IsLogin(t, e, c) && !IsRotation(t, e)
    ensures Shrinks(t, Apply(t, e, c))
  {
    hide InvalidatedFor, AfterSuccess, AfterFailure;
  }

  lemma LoginIssues(t: Tables, e: Timed, c: Config)
    requires IsLogin(t, e, c)
    ensures Apply(t, e, c).tokens ==
            t.tokens[t.nextJti := RefreshToken(e.event.user, e.now + c.tokenLifetime, None)]
  {
  }

  lemma LoginKeepsDescent(l: Ledger, e: Timed, c: Config)
    requires Ordered(l) && Descends(l) && IsLogin(l.t, e, c)
    ensures Descends(Track(l, e, c))
  {
    var after, n := Track(l, e, c), l.t.nextJti;
    LoginIssues(l.t, e, c);
    hide Apply;
    assert Root(after.parent, n) == n;
    forall j | Live(after.t, j) ensures Rooted(after, j) && (j != n ==> Root(after.parent, j) < n) {
      if j != n {
        assert Live(l.t, j) && Rooted(l, j);
        RootIsOlder(l.parent, j);
      }
    }
  }

  lemma RotationReplaces(t: Tables, e: Timed, c: Config)
    requires Numbered(t) && IsRotation(t, e)
    ensures var j := e.event.jti;
            var after := Apply(t, e, c);
            && Live(t, j) && !Live(after, j) && j < t.nextJti
            && Live(after, t.nextJti) && after.tokens[t.nextJti].user == t.tokens[j].user
            && forall k :: k != t.nextJti && Live(after, k) ==> Live(t, k) && after.tokens[k].user == t.tokens[k].user
  {
  }

  lemma RotationKeepsDescent(l: Ledger, e: Timed, c: Config)
    requires Ordered(l) && Descends(l) && IsRotation(l.t, e)
    ensures Descends(Track(l, e, c))
  {
    var after, n, replaced := Track(l, e, c), l.t.nextJti, e.event.jti;
    RotationReplaces(l.t, e, c);
    hide Apply, Live, RefreshOutcome;
    RootIsSettled(l.parent, replaced, n, replaced);
    assert Root(after.parent, n) == Root(after.parent, replaced);
    forall j | Live(after.t, j)
      ensures Rooted(after, j)
      ensures j != n ==> Root(after.parent, j) == Root(l.parent, j)
    {
      assert j != n ==> Live(l.t, j) && Rooted(l, j);
      assert Rooted(l, replaced);
      if j != n {
        LiveIsOld(l.t, j);
        RootIsSettled(l.parent, j, n, replaced);
      }
    }
  }

  lemma LiveIsOld(t: Tables, j: Jti)
    requires Numbered(t) && Live(t, j)
    ensures j < t.nextJti
  {
  }

  lemma StepKeepsDescent(l: Ledger, e: Timed, c: Config)
    requires Ordered(l) && Descends(l)
    ensures Ordered(Track(l, e, c)) && Descends(Track(l, e, c))
  {
    StepKeepsNumbered(l.t, e, c);
    if IsLogin(l.t, e, c) {
      LoginKeepsDescent(l, e, c);
    } else if IsRotation(l.t, e) {
      RotationReplaces(l.t, e, c);
      RotationKeepsDescent(l, e, c);
    } else {
      OthersShrink(l.t, e, c);
      if Evicted(l.t, e, c).Some? {
        EvictionKills(l.t, e, c);
      }
      ShrinkingKeepsDescent(l, Track(l, e, c));
    }
  }

  lemma {:induction false} HistoryKeepsDescent(events: seq<Timed>, c: Config)
    ensures Ordered(History(events, c)) && Descends(History(events, c))
  {
    if events != [] {
      HistoryKeepsDescent(events[..|events| - 1], c);
      StepKeepsDescent(History(events[..|events| - 1], c), events[|events| - 1], c);
    }
  }

  // ---------------------------------------------------------------------------
  // How many sessions
  // ---------------------------------------------------------------------------

  function Sessions(t: Tables, u: UserId): set<Jti> {
    set j | j in t.tokens && t.tokens[j].user == u && t.tokens[j].revokedAt.None?
  }

  /** Successful logins of a user since its sessions were last all revoked. */
  function LoginsSince(events: seq<Timed>, c: Config, u: UserId): nat {
    if events == [] then 0
    else
      var front, e := events[..|events| - 1], events[|events| - 1];
      var t := Run(EMPTY, front, c);
      if IsLogin(t, e, c) && e.event.user == u then LoginsSince(front, c, u) + 1
      else if Evicted(t, e, c) == Some(u) then 0
      else LoginsSince(front, c, u)
  }

  lemma {:induction false} LoginsAreCounted(events: seq<Timed>, c: Config, u: UserId)
    ensures |LoginsOf(History(events, c), u)| == LoginsSince(events, c, u)
  {
    if events != [] {
      var front, e := events[..|events| - 1], events[|events| - 1];
      LoginsAreCounted(front, c, u);
      HistoryRunsTheTables(front, c);
      HistoryKeepsDescent(front, c);
      OneMoreLogin(History(front, c), e, c, u);
    }
  }

  lemma OneMoreLogin(l: Ledger, e: Timed, c: Config, u: UserId)
    requires Ordered(l)
    ensures |LoginsOf(Track(l, e, c), u)| ==
            if IsLogin(l.t, e, c) && e.event.user == u then |LoginsOf(l, u)| + 1
            else if Evicted(l.t, e, c) == Some(u) then 0
            else |LoginsOf(l, u)|
  {
    hide Apply, LoginOutcome;
    SizeOfAdd(LoginsOf(l, u), l.t.nextJti);
  }

  lemma {:induction false} RootsAreDistinct(parent: map<Jti, Jti>, tokens: set<Jti>, logins: set<Jti>)
    requires forall j :: j in tokens ==> Root(parent, j) in logins
    requires forall j, k :: j in tokens && k in tokens && Root(parent, j) == Root(parent, k) ==> j == k
    ensures |tokens| <= |logins|
  {
    if tokens != {} {
      var j := SomeElement(tokens);
      var r := Root(parent, j);
      RootsAreDistinct(parent, tokens - {j}, logins - {r});
      assert tokens == (tokens - {j}) + {j};
      SizeOfAdd(tokens - {j}, j);
      assert logins == (logins - {r}) + {r};
      SizeOfAdd(logins - {r}, r);
    }
  }

  /** A user never has more live sessions than logins since all of them were last revoked. */
  lemma SessionsAreBounded(events: seq<Timed>, c: Config, u: UserId)
    ensures |Sessions(Run(EMPTY, events, c), u)| <= LoginsSince(events, c, u)
  {
    var l := History(events, c);
    HistoryRunsTheTables(events, c);
    HistoryKeepsDescent(events, c);
    LoginsAreCounted(events, c, u);
    forall j | j in Sessions(l.t, u) ensures Live(l.t, j) && Root(l.parent, j) in LoginsOf(l, u) {
      assert Rooted(l, j);
    }
    RootsAreDistinct(l.parent, Sessions(l.t, u), LoginsOf(l, u));
  }

  // ---------------------------------------------------------------------------
  // Inactive users and old reset links
  // ---------------------------------------------------------------------------

  /** Only active users have live sessions. */
  ghost predicate SessionsAreActive(t: Tables) {
    forall j :: Live(t, j) ==> IsActiveUser(t, t.tokens[j].user)
  }

  /** A reset link that still works is the last one its user asked for. */
  ghost predicate OnlyNewestWorks(t: Tables) {
    forall r: ResetId, s: ResetId :: Unused(t, r) && s in t.resets && t.resets[s].user == t.resets[r].user ==> s <= r
  }

  lemma StepKeepsActive(t: Tables, e: Timed, c: Config)
    requires Numbered(t) && SessionsAreActive(t)
    ensures SessionsAreActive(Apply(t, e, c))
  {
    hide AfterLogin, AfterRefresh, AfterReset, AfterPasswordChange, AfterSetActive, SessionsAreActive;
    match e.event
    case Login(u, password) => LoginKeepsActive(t, c, u, password, e.now);
    case Refresh(j) => RefreshKeepsActive(t, c, j, e.now);
    case ResetPassword(r, password) => ResetKeepsActive(t, c, r, password, e.now);
    case ChangePassword(u, current, password) => PasswordChangeKeepsActive(t, c, u, current, password, e.now);
    case SetActive(u, active) => SetActiveKeepsActive(t, u, active, e.now);
    case _ => OthersKeepActive(t, e, c);
  }

  lemma LoginKeepsActive(t: Tables, c: Config, u: UserId, password: string, now: int)
    requires Numbered(t) && SessionsAreActive(t)
    ensures SessionsAreActive(AfterLogin(t, c, u, password, now))
  {
  }

  lemma RefreshKeepsActive(t: Tables, c: Config, j: Jti, now: int)
    requires Numbered(t) && SessionsAreActive(t)
    ensures SessionsAreActive(AfterRefresh(t, c, j, now))
  {
  }

  lemma ResetKeepsActive(t: Tables, c: Config, r: ResetId, password: string, now: int)
    requires SessionsAreActive(t)
    ensures SessionsAreActive(AfterReset(t, c, r, password, now))
  {
  }

  lemma PasswordChangeKeepsActive(t: Tables, c: Config, u: UserId, current: string, password: string, now: int)
    requires SessionsAreActive(t)
    ensures SessionsAreActive(AfterPasswordChange(t, c, u, current, password, now))
  {
  }

  lemma SetActiveKeepsActive(t: Tables, u: UserId, active: bool, now: int)
    requires SessionsAreActive(t)
    ensures SessionsAreActive(AfterSetActive(t, u, active, now))
  {
  }

  lemma OthersKeepActive(t: Tables, e: Timed, c: Config)
    requires Numbered(t) && SessionsAreActive(t)
    requires !e.event.Login? && !e.event.Refresh? && !e.event.ResetPassword? && !e.event.ChangePassword?
    requires !e.event.SetActive?
    ensures SessionsAreActive(Apply(t, e, c))
  {
    hide AfterLogin, AfterRefresh, AfterReset, AfterPasswordChange, AfterSetActive;
  }

  lemma StepKeepsNewest(t: Tables, e: Timed, c: Config)
    requires Numbered(t) && OnlyNewestWorks(t)
    ensures OnlyNewestWorks(Apply(t, e, c))
  {
    hide AfterResetRequest, AfterReset, AfterDeleteUser, OnlyNewestWorks;
    match e.event
    case RequestReset(u) => RequestKeepsNewest(t, c, u, e.now);
    case ResetPassword(r, password) => ResetKeepsNewest(t, c, r, password, e.now);
    case DeleteUser(u) => DeletionKeepsNewest(t, u);
    case _ => SameResetsKeepNewest(t, e, c);
  }

  lemma RequestKeepsNewest(t: Tables, c: Config, u: UserId, now: int)
    requires Numbered(t) && OnlyNewestWorks(t)
    ensures OnlyNewestWorks(AfterResetRequest(t, c, u, now))
  {
  }

  lemma ResetKeepsNewest(t: Tables, c: Config, r: ResetId, password: string, now: int)
    requires OnlyNewestWorks(t)
    ensures OnlyNewestWorks(AfterReset(t, c, r, password, now))
  {
    hide RevokedFor;
  }

  lemma DeletionKeepsNewest(t: Tables, u: UserId)
    requires OnlyNewestWorks(t)
    ensures OnlyNewestWorks(AfterDeleteUser(t, u))
  {
  }

  lemma SameResetsKeepNewest(t: Tables, e: Timed, c: Config)
    requires OnlyNewestWorks(t) && !e.event.RequestReset? && !e.event.ResetPassword? && !e.event.DeleteUser?
    ensures OnlyNewestWorks(Apply(t, e, c))
  {
    hide RevokedFor, Revoked, AfterSuccess, AfterFailure, AfterResetRequest, AfterReset, AfterDeleteUser;
    assert Apply(t, e, c).resets == t.resets;
  }

  lemma {:induction false} RunsKeepSessionsActive(events: seq<Timed>, c: Config)
    ensures var t := Run(EMPTY, events, c);
            Numbered(t) && SessionsAreActive(t) && OnlyNewestWorks(t)
  {
    if events != [] {
      var front := events[..|events| - 1];
      RunsKeepSessionsActive(front, c);
      StepKeepsNumbered(Run(EMPTY, front, c), events[|events| - 1], c);
      StepKeepsActive(Run(EMPTY, front, c), events[|events| - 1], c);
      StepKeepsNewest(Run(EMPTY, front, c), events[|events| - 1], c);
    }
  }

  // ---------------------------------------------------------------------------
  // What single calls do to the sessions
  // ---------------------------------------------------------------------------

  /** What every call keeps. */
  ghost predicate Consistent(t: Tables) { Numbered(t) && OnlyNewestWorks(t) }

  /** If only active users had live sessions, that is still so. */
  ghost predicate KeepsSessionsActive(t: Tables, after: Tables) {
    SessionsAreActive(t) ==> SessionsAreActive(after)
  }

  lemma StepKeepsConsistent(t: Tables, e: Timed, c: Config)
    requires Consistent(t)
    ensures Consistent(Apply(t, e, c)) && KeepsSessionsActive(t, Apply(t, e, c))
  {
    hide Apply, SessionsAreActive;
    StepKeepsNumbered(t, e, c);
    StepKeepsNewest(t, e, c);
    if SessionsAreActive(t) {
      StepKeepsActive(t, e, c);
    }
  }

  /** So in every reachable state a refresh never meets a live token of an inactive user: the
      check for one is a second line of defence. */
  lemma RefreshNeverMeetsAnInactiveUser(events: seq<Timed>, c: Config, j: Jti, now: int)
    ensures RefreshOutcome(Run(EMPTY, events, c), j, now) != Err(InactiveUser)
  {
    RunsKeepSessionsActive(events, c);
    assert TokenIsActive(Run(EMPTY, events, c), j, now) ==> Live(Run(EMPTY, events, c), j);
  }

  /** Nobody but `u` has gained or lost a session. */
  ghost predicate OthersKeepSessions(t: Tables, after: Tables, u: UserId) {
    forall v: UserId :: v != u ==> Sessions(after, v) == Sessions(t, v)
  }

  lemma IssuingAddsASession(t: Tables, c: Config, u: UserId, now: int)
    requires Numbered(t)
    ensures var after := Issued(t, c, u, now);
            && t.nextJti !in t.tokens && Sessions(after, u) == Sessions(t, u) + {t.nextJti}
            && |Sessions(after, u)| == |Sessions(t, u)| + 1 && OthersKeepSessions(t, after, u)
  {
    var after := Issued(t, c, u, now);
    assert Sessions(after, u) == Sessions(t, u) + {t.nextJti};
    SizeOfAdd(Sessions(t, u), t.nextJti);
  }

  /** A successful login gives its user exactly one more session, under an identifier never
      used before, and nobody else any; a failed one gives nobody any. */
  lemma LoginAddsASession(t: Tables, c: Config, u: UserId, password: string, now: int)
    requires Numbered(t)
    ensures var outcome, after := LoginOutcome(t, c, u, password, now), AfterLogin(t, c, u, password, now);
            && (outcome.Err? ==> after.tokens == t.tokens)
            && (outcome.Ok? ==>
                  && outcome.value !in t.tokens && Sessions(after, u) == Sessions(t, u) + {outcome.value}
                  && |Sessions(after, u)| == |Sessions(t, u)| + 1 && OthersKeepSessions(t, after, u)
                  && IsActiveUser(after, u) && after.users[u].failures == 0)
  {
    hide AfterSuccess, AfterFailure, Issued, Sessions;
    if u in t.users && LoginOutcome(t, c, u, password, now).Ok? {
      var cleared := AfterSuccess(t.users[u], c, password);
      IssuingBesideAnUpdate(t, c, u, cleared, now);
      ClearedRow(t.users[u], c, password);
    }
  }

  lemma ClearedRow(user: User, c: Config, password: string)
    ensures AfterSuccess(user, c, password).active == user.active && AfterSuccess(user, c, password).failures == 0
  {
  }

  /** Issuing a token beside an update of the user's row. */
  lemma IssuingBesideAnUpdate(t: Tables, c: Config, u: UserId, row: User, now: int)
    requires Numbered(t) && u in t.users
    ensures var after := Issued(t.(users := t.users[u := row]), c, u, now);
            && t.nextJti !in t.tokens && Sessions(after, u) == Sessions(t, u) + {t.nextJti}
            && |Sessions(after, u)| == |Sessions(t, u)| + 1 && OthersKeepSessions(t, after, u)
            && u in after.users && after.users[u] == row
  {
    var updated := t.(users := t.users[u := row]);
    assert forall v: UserId :: Sessions(updated, v) == Sessions(t, v);
    IssuingAddsASession(updated, c, u, now);
  }

  /** A rotation swaps one session for another: the token presented is dead, the new one is
      live, never used before and its owner's, and the owner has as many sessions as before. */
  lemma RotationSwapsSessions(t: Tables, c: Config, j: Jti, now: int)
    requires Numbered(t) && RefreshOutcome(t, j, now).Ok?
    ensures var k, after := RefreshOutcome(t, j, now).value, AfterRefresh(t, c, j, now);
            var u := t.tokens[j].user;
            && Dead(after, j) && Live(after, k) && k !in t.tokens && after.tokens[k].user == u
            && Sessions(after, u) == Sessions(t, u) - {j} + {k}
            && |Sessions(after, u)| == |Sessions(t, u)| && OthersKeepSessions(t, after, u)
  {
    var u := t.tokens[j].user;
    var revoked := t.(tokens := t.tokens[j := Revoked(t.tokens[j], now)]);
    assert Sessions(revoked, u) == Sessions(t, u) - {j};
    IssuingAddsASession(revoked, c, u, now);
    assert Sessions(t, u) == Sessions(revoked, u) + {j};
    SizeOfAdd(Sessions(revoked, u), j);
    assert forall v: UserId :: v != u ==> Sessions(revoked, v) == Sessions(t, v);
  }

  /** Revoking every session of a user leaves that user without one and the others alone. */
  lemma RevokingEmptiesSessions(t: Tables, after: Tables, u: UserId, now: int)
    requires after.tokens == RevokedFor(t.tokens, u, now)
    ensures Sessions(after, u) == {} && OthersKeepSessions(t, after, u)
  {
  }

  /** An inactive user has no session to begin with. */
  lemma InactiveHaveNone(t: Tables, u: UserId)
    requires SessionsAreActive(t) && !IsActiveUser(t, u)
    ensures Sessions(t, u) == {}
  {
    assert forall j :: j in Sessions(t, u) ==> Live(t, j);
  }

  /** After asking for a reset the new link is the only one of that user that works. */
  lemma NewLinkIsTheOnlyOne(t: Tables, c: Config, u: UserId, now: int)
    requires Numbered(t) && IsActiveUser(t, u)
    ensures var after := AfterResetRequest(t, c, u, now);
            && t.nextReset !in t.resets && Unused(after, t.nextReset)
            && forall r: ResetId :: Unused(after, r) && after.resets[r].user == u ==> r == t.nextReset
  {
  }
}
