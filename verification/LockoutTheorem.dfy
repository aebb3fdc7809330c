/** How many passwords can be tried against an account: the lockout of
    backend/app/services/auth.py. */
module LockoutTheorem {
  import opened Wrappers
  import opened Arithmetic
  import opened AuthTables
  import opened SessionTheorems

  /** The event clears the account's failures: a successful login or a password reset. */
  predicate Clears(t: Tables, e: Timed, c: Config, u: UserId) {
    || (IsLogin(t, e, c) && e.event.user == u)
    || (e.event.ResetPassword? && ResetOutcome(t, e.event.reset, e.now) == Ok(u))
  }

  /** A wrong password for the account is compared with the stored one. */
  predicate IsGuess(t: Tables, e: Timed, c: Config, u: UserId) {
    e.event.Login? && e.event.user == u && IsWrongGuess(t, c, u, e.event.password, e.now)
  }

  /** Wrong passwords evaluated for the account over a run. */
  function GuessCount(t: Tables, events: seq<Timed>, c: Config, u: UserId): nat {
    if events == [] then 0
    else
      var front := events[..|events| - 1];
      GuessCount(t, front, c, u) + if IsGuess(Run(t, front, c), events[|events| - 1], c, u) then 1 else 0
  }

  function LastTime(events: seq<Timed>, from: int): int {
    if events == [] then from else events[|events| - 1].now
  }

  /** Time does not run backwards from `from` on, and nothing clears the account's failures. */
  ghost predicate Uncleared(t: Tables, events: seq<Timed>, c: Config, u: UserId, from: int) {
    forall i :: 0 <= i < |events| ==>
      LastTime(events[..i], from) <= events[i].now && !Clears(Run(t, events[..i], c), events[i], c, u)
  }

  function FailuresOf(t: Tables, u: UserId): nat { if u in t.users then t.users[u].failures else 0 }

  lemma UserStep(t: Tables, e: Timed, c: Config, u: UserId)
    requires Numbered(t) && !Clears(t, e, c, u)
    ensures var after := Apply(t, e, c);
            && (u in t.users && u in after.users ==>
                  if IsGuess(t, e, c, u) then after.users[u] == AfterFailure(t.users[u], c, e.now)
                  else after.users[u].failures == t.users[u].failures
                       && after.users[u].lockedUntil == t.users[u].lockedUntil)
            && (u in t.users && u !in after.users ==> !IsGuess(t, e, c, u))
            && (u !in t.users && u in after.users ==>
                  u == t.nextUser && after.users[u].failures == 0 && after.users[u].lockedUntil.None?)
  {
  }

  /** What is known after some events: all guesses so far went into `locks` full rounds and
      `failures` of the next one, and each lock took its time. */
  ghost predicate Accounted(t: Tables, c: Config, u: UserId, spent: int, count: int, locks: nat, failures: nat)
  {
    && failures < c.maxFailures
    && count == locks * c.maxFailures + failures
    && (locks > 0 ==> (locks - 1) * c.lockout <= spent)
    && (locks > 0 && failures > 0 ==> locks * c.lockout <= spent)
    && (u in t.users ==> t.users[u].failures == failures)
    && (u !in t.users && t.nextUser <= u ==> locks == 0 && failures == 0)
  }

  ghost predicate LockedLongEnough(t: Tables, c: Config, u: UserId, from: int, locks: nat) {
    u in t.users && locks > 0 ==>
      t.users[u].lockedUntil.Some? && t.users[u].lockedUntil.value >= from + locks * c.lockout
  }

  lemma GuessAccounted(t: Tables, e: Timed, c: Config, u: UserId, from: int, spent: int, count: nat,
                       locks: nat, failures: nat) returns (locks': nat, failures': nat)
    requires Numbered(t) && !Clears(t, e, c, u) && c.maxFailures >= 1 && c.lockout > 0
    requires Accounted(t, c, u, spent, count, locks, failures) && LockedLongEnough(t, c, u, from, locks)
    requires spent <= e.now - from && 0 <= e.now - from && IsGuess(t, e, c, u)
    ensures var after := Apply(t, e, c);
            && Accounted(after, c, u, e.now - from, count + 1, locks', failures')
            && LockedLongEnough(after, c, u, from, locks')
  {
    UserStep(t, e, c, u);
    GuessKeepsUser(t, e, c, u);
    hide Apply, Numbered, Clears;
    if failures + 1 >= c.maxFailures {
      locks', failures' := locks + 1, 0;
      assert locks' * c.maxFailures == locks * c.maxFailures + c.maxFailures;
      assert locks' * c.lockout == locks * c.lockout + c.lockout;
    } else {
      locks', failures' := locks, failures + 1;
    }
  }

  lemma GuessKeepsUser(t: Tables, e: Timed, c: Config, u: UserId)
    requires IsGuess(t, e, c, u)
    ensures u in Apply(t, e, c).users
  {
  }

  lemma OtherAccounted(t: Tables, e: Timed, c: Config, u: UserId, from: int, spent: int, count: nat,
                       locks: nat, failures: nat)
    requires Numbered(t) && !Clears(t, e, c, u) && !IsGuess(t, e, c, u)
    requires Accounted(t, c, u, spent, count, locks, failures) && LockedLongEnough(t, c, u, from, locks)
    requires spent <= e.now - from
    ensures Accounted(Apply(t, e, c), c, u, e.now - from, count, locks, failures)
    ensures LockedLongEnough(Apply(t, e, c), c, u, from, locks)
  {
    UserStep(t, e, c, u);
    StepKeepsNumbered(t, e, c);
    hide Apply, Clears;
  }

  lemma UnclearedFront(t: Tables, events: seq<Timed>, c: Config, u: UserId, from: int)
    requires events != [] && Uncleared(t, events, c, u, from)
    ensures var front, e := events[..|events| - 1], events[|events| - 1];
            && Uncleared(t, front, c, u, from)
            && LastTime(front, from) <= e.now && !Clears(Run(t, front, c), e, c, u)
  {
    hide Clears, Run;
    var front := events[..|events| - 1];
    assert forall i :: 0 <= i < |front| ==> front[..i] == events[..i];
  }

  lemma NothingYet(t: Tables, c: Config, u: UserId, from: int)
    requires Numbered(t) && FailuresOf(t, u) < c.maxFailures
    ensures Accounted(t, c, u, 0, FailuresOf(t, u), 0, FailuresOf(t, u)) && LockedLongEnough(t, c, u, from, 0)
  {
  }

  lemma {:induction false} AllAccounted(t: Tables, events: seq<Timed>, c: Config, u: UserId, from: int)
      returns (locks: nat, failures: nat)
    requires Numbered(t) && c.maxFailures >= 1 && c.lockout > 0 && FailuresOf(t, u) < c.maxFailures
    requires Uncleared(t, events, c, u, from)
    ensures var after := Run(t, events, c);
            && Numbered(after) && from <= LastTime(events, from)
            && Accounted(after, c, u, LastTime(events, from) - from, GuessCount(t, events, c, u) + FailuresOf(t, u),
                         locks, failures)
            && LockedLongEnough(after, c, u, from, locks)
  {
    hide Accounted, LockedLongEnough, Apply, Clears, Numbered, IsGuess, FailuresOf, Uncleared;
    if events == [] {
      locks, failures := 0, FailuresOf(t, u);
      NothingYet(t, c, u, from);
    } else {
      var n := |events| - 1;
      var front, e := events[..n], events[n];
      UnclearedFront(t, events, c, u, from);
      locks, failures := AllAccounted(t, front, c, u, from);
      var before := Run(t, front, c);
      var spent, count := LastTime(front, from) - from, GuessCount(t, front, c, u) + FailuresOf(t, u);
      StepKeepsNumbered(before, e, c);
      if IsGuess(before, e, c, u) {
        locks, failures := GuessAccounted(before, e, c, u, from, spent, count, locks, failures);
      } else {
        OtherAccounted(before, e, c, u, from, spent, count, locks, failures);
      }
    }
  }

  lemma RoundsFit(locks: nat, failures: nat, max: nat, lockout: int, span: nat)
    requires max >= 1 && lockout > 0 && failures < max
    requires locks > 0 ==> (locks - 1) * lockout <= span
    requires locks > 0 && failures > 0 ==> locks * lockout <= span
    ensures locks * max + failures <= max * (span / lockout + 1)
  {
    var whole := span / lockout;
    if failures == 0 {
      if locks > 0 {
        CountFromProduct(locks, lockout, span);
      }
      Grows(locks, whole + 1, max);
    } else {
      if locks > 0 {
        assert ((locks + 1) - 1) * lockout <= span;
        CountFromProduct(locks + 1, lockout, span);
      }
      Grows(locks, whole, max);
      assert max * (whole + 1) == whole * max + max;
    }
  }

  lemma Grows(a: nat, b: nat, m: nat)
    requires a <= b
    ensures a * m <= m * b
  {
  }

  lemma StepKeepsCounterBelow(t: Tables, e: Timed, c: Config, u: UserId)
    requires c.maxFailures >= 1 && FailuresOf(t, u) < c.maxFailures
    ensures FailuresOf(Apply(t, e, c), u) < c.maxFailures
  {
  }

  /** The failure counter never reaches the threshold. */
  lemma {:induction false} CounterStaysBelow(events: seq<Timed>, c: Config, u: UserId)
    requires c.maxFailures >= 1
    ensures FailuresOf(Run(EMPTY, events, c), u) < c.maxFailures
  {
    if events != [] {
      hide Apply, FailuresOf;
      var front := events[..|events| - 1];
      CounterStaysBelow(front, c, u);
      StepKeepsCounterBelow(Run(EMPTY, front, c), events[|events| - 1], c, u);
    } else {
      NobodyFailed(u);
    }
  }

  lemma NothingIsNumbered()
    ensures Numbered(EMPTY)
  {
  }

  lemma NobodyFailed(u: UserId)
    ensures FailuresOf(EMPTY, u) == 0
  {
  }

  /** After any run, over any further stretch of time without a successful login or a reset,
      the wrong passwords evaluated for an account are bounded by the threshold for each
      lockout period begun. */
  lemma GuessesAreBounded(past: seq<Timed>, events: seq<Timed>, c: Config, u: UserId, from: int, span: nat)
    requires c.maxFailures >= 1 && c.lockout > 0
    requires Uncleared(Run(EMPTY, past, c), events, c, u, from) && LastTime(events, from) <= from + span
    ensures GuessCount(Run(EMPTY, past, c), events, c, u) <= c.maxFailures * (span / c.lockout + 1)
  {
    hide Run, GuessCount, FailuresOf, Uncleared, LastTime, LockedLongEnough, Numbered;
    var t := Run(EMPTY, past, c);
    NothingIsNumbered();
    RunKeepsNumbered(EMPTY, past, c);
    CounterStaysBelow(past, c, u);
    var locks, failures := AllAccounted(t, events, c, u, from);
    RoundsFit(locks, failures, c.maxFailures, c.lockout, span);
  }
}
