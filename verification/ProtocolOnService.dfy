/** The client protocol runs on the auth service: every interleaving of frontend/src/api/client.ts
    with its server is a run of backend/app/services/auth.py. */
module ProtocolOnService {
  import opened Wrappers
  import opened AuthTables
  import opened SessionTheorems
  import Protocol = ApiClient

  /** The calls the service gets: an account, its login, and then each post the server handles. */
  function Served(events: seq<Protocol.Event>, passwordHash: string, password: string): seq<Timed> {
    if events == [] then [Timed(Register(passwordHash, true), 0), Timed(Login(0, password), 0)]
    else
      var front, e := events[..|events| - 1], events[|events| - 1];
      var s, calls := Protocol.Run(front), Served(front, passwordHash, password);
      if Handles(s, e) then calls + [Timed(Refresh(s.posts[e.post].token), 0)] else calls
  }

  /** The server handles a post it has not handled before. */
  predicate Handles(s: Protocol.System, e: Protocol.Event) {
    e.Serve? && e.post in s.posts && s.posts[e.post].reply.None?
  }

  /** The service has the live tokens of the protocol's server, and none is expired or belongs
      to an inactive user. */
  ghost predicate Matches(s: Protocol.System, t: Tables) {
    && s.live == Protocol.LiveTokens(t) && s.nextToken == t.nextJti
    && forall j :: j in s.live ==> j < t.nextJti && t.tokens[j].expiresAt > 0 && IsActiveUser(t, t.tokens[j].user)
  }

  lemma StartMatches(c: Config, passwordHash: string, password: string)
    requires c.tokenLifetime > 0 && c.verify(password, passwordHash)
    ensures Matches(Protocol.START, Run(EMPTY, Served([], passwordHash, password), c))
  {
    var calls := Served([], passwordHash, password);
    assert calls[..1] == [calls[0]];
    assert calls[..1][..0] == [];
    var account := AfterRegister(EMPTY, passwordHash, true);
    assert Run(EMPTY, calls[..1], c) == account;
    var t := AfterLogin(account, c, 0, password, 0);
    assert Run(EMPTY, calls, c) == t;
    assert t.tokens == map[0 := RefreshToken(0, c.tokenLifetime, None)];
  }

  /** Handling a post is one refresh of the service, with the same answer. */
  lemma HandlingIsRefreshing(s: Protocol.System, e: Protocol.Event, t: Tables, c: Config)
    requires Matches(s, t) && Handles(s, e) && c.tokenLifetime > 0
    ensures var token, after := s.posts[e.post].token, Protocol.Apply(s, e);
            && Matches(after, AfterRefresh(t, c, token, 0))
            && after.posts[e.post].reply ==
               Some(if RefreshOutcome(t, token, 0).Ok? then Some(RefreshOutcome(t, token, 0).value) else None)
  {
    Protocol.ServingIsRefreshing(t, c, s.posts[e.post].token, 0);
  }

  lemma OthersLeaveTheServer(s: Protocol.System, e: Protocol.Event)
    requires !Handles(s, e)
    ensures Protocol.Apply(s, e).live == s.live && Protocol.Apply(s, e).nextToken == s.nextToken
  {
  }

  lemma RunOneMore(calls: seq<Timed>, call: Timed, c: Config)
    ensures Run(EMPTY, calls + [call], c) == Apply(Run(EMPTY, calls, c), call, c)
  {
    assert (calls + [call])[..|calls|] == calls;
  }

  /** Every run of the protocol is a run of the service: the server's live tokens are the
      service's at every moment. */
  lemma {:induction false} ProtocolRunsOnTheService(events: seq<Protocol.Event>, c: Config, passwordHash: string,
                                                    password: string)
    requires c.tokenLifetime > 0 && c.verify(password, passwordHash)
    ensures Matches(Protocol.Run(events), Run(EMPTY, Served(events, passwordHash, password), c))
  {
    hide Matches, Apply, Protocol.Apply;
    if events == [] {
      StartMatches(c, passwordHash, password);
    } else {
      var front, e := events[..|events| - 1], events[|events| - 1];
      var s, calls := Protocol.Run(front), Served(front, passwordHash, password);
      ProtocolRunsOnTheService(front, c, passwordHash, password);
      MatchStep(s, e, calls, c);
    }
  }

  lemma MatchStep(s: Protocol.System, e: Protocol.Event, calls: seq<Timed>, c: Config)
    requires Matches(s, Run(EMPTY, calls, c)) && c.tokenLifetime > 0
    ensures Handles(s, e) ==>
              Matches(Protocol.Apply(s, e), Run(EMPTY, calls + [Timed(Refresh(s.posts[e.post].token), 0)], c))
    ensures !Handles(s, e) ==> Matches(Protocol.Apply(s, e), Run(EMPTY, calls, c))
  {
    if Handles(s, e) {
      HandlingIsRefreshing(s, e, Run(EMPTY, calls, c), c);
      RunOneMore(calls, Timed(Refresh(s.posts[e.post].token), 0), c);
    } else {
      OthersLeaveTheServer(s, e);
    }
    hide Protocol.Apply, Run, AfterRefresh, Handles;
  }

  /** So the client never makes the service refuse a refresh: each of its calls rotates. */
  lemma {:induction false} ServiceNeverRefuses(events: seq<Protocol.Event>, c: Config, passwordHash: string,
                                               password: string, i: nat)
    requires c.tokenLifetime > 0 && c.verify(password, passwordHash)
    requires var calls := Served(events, passwordHash, password);
             i < |calls| && calls[i].event.Refresh?
    ensures var calls := Served(events, passwordHash, password);
            IsRotation(Run(EMPTY, calls[..i], c), calls[i])
  {
    hide Run, Apply, Protocol.Apply, Protocol.Run, IsRotation;
    if events != [] {
      var front, e := events[..|events| - 1], events[|events| - 1];
      var calls := Served(front, passwordHash, password);
      var all := Served(events, passwordHash, password);
      if i < |calls| {
        assert all[..i] == calls[..i] && all[i] == calls[i];
        ServiceNeverRefuses(front, c, passwordHash, password, i);
      } else {
        assert all[..i] == calls;
        ProtocolRunsOnTheService(front, c, passwordHash, password);
        Protocol.RunsAreSound(front);
        PostedTokenRotates(Protocol.Run(front), e, Run(EMPTY, calls, c));
      }
    }
  }

  lemma PostedTokenRotates(s: Protocol.System, e: Protocol.Event, t: Tables)
    requires Protocol.Sound(s) && Matches(s, t) && Handles(s, e)
    ensures IsRotation(t, Timed(Refresh(s.posts[e.post].token), 0))
  {
    assert s.posts[e.post].token in s.live;
  }
}
