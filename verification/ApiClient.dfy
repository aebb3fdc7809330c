/** The browser side of session refresh, and the protocol it runs with the server:
    frontend/src/api/client.ts and frontend/src/api/tokenStore.ts. */
module ApiClient {
  import opened Wrappers
  import AuthTables

  type Token = nat
  type RequestId = nat
  type PostId = nat

  // ---------------------------------------------------------------------------
  // The client
  // ---------------------------------------------------------------------------

  datatype Phase = Sent | Waiting | Answered | Rejected

  /** A request: its `_retried` flag, the access token it carries, and how often it was
      handed to axios again. */
  datatype Request = Request(toRefresh: bool, phase: Phase, retried: bool, access: Option<Token>, replays: nat)

  /** The token store, the shared `refreshing` promise and the requests made so far. */
  datatype Client = Client(access: Option<Token>, refresh: Option<Token>, refreshing: Option<PostId>,
                           requests: map<RequestId, Request>, nextRequest: RequestId)

  function Requested(c: Client, toRefresh: bool): Client {
    c.(requests := c.requests[c.nextRequest := Request(toRefresh, Sent, false, c.access, 0)],
       nextRequest := c.nextRequest + 1)
  }

  predicate IsPending(c: Client, id: RequestId) { id in c.requests && c.requests[id].phase == Sent }

  function Moved(c: Client, id: RequestId, phase: Phase): Client
    requires id in c.requests
  {
    c.(requests := c.requests[id := c.requests[id].(phase := phase)])
  }

  /** The error is one a refresh may mend. */
  predicate Refreshable(c: Client, id: RequestId, status: Option<nat>)
    requires id in c.requests
  {
    status == Some(401) && !c.requests[id].retried && !c.requests[id].toRefresh && c.refresh.Some?
  }

  /** The error interceptor up to its `await`: mark the request and wait for the shared
      refresh, starting post `next` if none is under way. */
  function Failed(c: Client, id: RequestId, status: Option<nat>, next: PostId): Client
    requires id in c.requests
  {
    if Refreshable(c, id, status) then
      c.(requests := c.requests[id := c.requests[id].(phase := Waiting, retried := true)],
         refreshing := if c.refreshing.None? then Some(next) else c.refreshing)
    else Moved(c, id, Rejected)
  }

  /** Everyone who waits replays with the new access token. */
  function Replayed(requests: map<RequestId, Request>, access: Token): map<RequestId, Request> {
    map id | id in requests ::
      if requests[id].phase == Waiting
      then requests[id].(phase := Sent, access := Some(access), replays := requests[id].replays + 1)
      else requests[id]
  }

  /** Everyone who waits gives up. */
  function GivenUp(requests: map<RequestId, Request>): map<RequestId, Request> {
    map id | id in requests ::
      if requests[id].phase == Waiting then requests[id].(phase := Rejected) else requests[id]
  }

  function Refreshed(c: Client, token: Token): Client {
    c.(access := Some(token), refresh := Some(token), refreshing := None, requests := Replayed(c.requests, token))
  }

  predicate SomeoneWaits(requests: map<RequestId, Request>) {
    exists id :: id in requests && requests[id].phase == Waiting
  }

  /** It is those who wait that clear the tokens. */
  function RefreshFailed(c: Client): Client {
    var cleared := if SomeoneWaits(c.requests) then c.(access := None, refresh := None) else c;
    cleared.(refreshing := None, requests := GivenUp(c.requests))
  }

  // ---------------------------------------------------------------------------
  // The client as an object
  // ---------------------------------------------------------------------------

  class Browser {
    var access: Option<Token>
    var refresh: Option<Token>
    var refreshing: Option<PostId>
    var requests: map<RequestId, Request>
    var nextRequest: RequestId

    ghost function Now(): Client
      reads this
    {
      Client(access, refresh, refreshing, requests, nextRequest)
    }

    constructor (access: Option<Token>, refresh: Option<Token>)
      ensures Now() == Client(access, refresh, None, map[], 0)
    {
      this.access, this.refresh, refreshing, requests, nextRequest := access, refresh, None, map[], 0;
    }

    method SetTokens(access: Token, refresh: Token)
      modifies this`access, this`refresh
      ensures this.access == Some(access) && this.refresh == Some(refresh)
    {
      this.access := Some(access);
      this.refresh := Some(refresh);
    }

    method ClearTokens()
      modifies this`access, this`refresh
      ensures access == None && refresh == None
    {
      access := None;
      refresh := None;
    }

    /** The request interceptor attaches the token at hand. */
    method Send(toRefresh: bool) returns (id: RequestId)
      modifies this`requests, this`nextRequest
      ensures Now() == Requested(old(Now()), toRefresh) && id == old(nextRequest)
    {
      id := nextRequest;
      requests := requests[id := Request(toRefresh, Sent, false, access, 0)];
      nextRequest := nextRequest + 1;
    }

    /** A response failed. Returns the refresh token to post under `next`, if this starts a
        refresh. */
    method OnError(id: RequestId, status: Option<nat>, next: PostId) returns (post: Option<Token>)
      requires id in requests
      modifies this`requests, this`refreshing
      ensures Now() == Failed(old(Now()), id, status, next)
      ensures requests.Keys == old(requests.Keys) && requests[id].phase ==
              if status == Some(401) && !old(requests)[id].retried && !old(requests)[id].toRefresh && refresh.Some?
              then Waiting else Rejected
      ensures post.Some? <==> requests[id].phase == Waiting && old(refreshing).None?
      ensures post.Some? ==> post == refresh && refreshing == Some(next)
    {
      var original := requests[id];
      post := None;
      if status == Some(401) && !original.retried && !original.toRefresh && refresh.Some? {
        requests := requests[id := original.(retried := true)];
        if refreshing.None? {
          refreshing := Some(next);
          post := refresh;
        }
        requests := requests[id := requests[id].(phase := Waiting)];
      } else {
        requests := requests[id := original.(phase := Rejected)];
      }
    }

    /** The refresh came back with new tokens: store them, clear the promise, wake the waiters. */
    method OnRefreshed(token: Token)
      modifies this
      ensures Now() == Refreshed(old(Now()), token)
    {
      SetTokens(token, token);
      refreshing := None;
      requests := map id | id in requests ::
          if requests[id].phase == Waiting
          then requests[id].(phase := Sent, access := access, replays := requests[id].replays + 1)
          else requests[id];
    }

    /** The refresh failed: every waiter clears the tokens and rejects. */
    method OnRefreshFailed()
      modifies this
      ensures Now() == RefreshFailed(old(Now()))
    {
      refreshing := None;
      if id :| id in requests && requests[id].phase == Waiting {
        ClearTokens();
      }
      requests := map id | id in requests ::
          if requests[id].phase == Waiting then requests[id].(phase := Rejected) else requests[id];
    }
  }

  // ---------------------------------------------------------------------------
  // Client, network and server
  // ---------------------------------------------------------------------------

  /** A refresh call on its way: what the server answered, once it did (`Some(None)` is a
      refusal), and whether the client still waits for it. */
  datatype Post = Post(token: Token, reply: Option<Option<Token>>, settled: bool)

  /** `live` are the refresh tokens the server would rotate. */
  datatype System = System(client: Client, posts: map<PostId, Post>, nextPost: PostId,
                           live: set<Token>, nextToken: Token)

  /** Just after a login. */
  const START := System(Client(Some(0), Some(0), None, map[], 0), map[], 0, {0}, 1)

  datatype Event =
    | Issue(toRefresh: bool)
    | Answer(id: RequestId)
    | Error(id: RequestId, status: Option<nat>)
    | Serve(post: PostId)
    | Deliver(post: PostId)
    | Lose(post: PostId)

  predicate InFlight(s: System, p: PostId) { p in s.posts && !s.posts[p].settled }

  /** A refresh starts when the client was not refreshing and now is. */
  function AfterError(s: System, id: RequestId, status: Option<nat>): System {
    if !IsPending(s.client, id) then s
    else
      var client := Failed(s.client, id, status, s.nextPost);
      if s.client.refreshing.None? && client.refreshing.Some? && client.refresh.Some? then
        s.(client := client, posts := s.posts[s.nextPost := Post(client.refresh.value, None, false)],
           nextPost := s.nextPost + 1)
      else s.(client := client)
  }

  /** The server handles a post it has not handled before, however late: a live token is
      revoked and replaced, any other is refused. */
  function AfterServe(s: System, p: PostId): System {
    if p !in s.posts || s.posts[p].reply.Some? then s
    else
      var post := s.posts[p];
      if post.token in s.live then
        s.(posts := s.posts[p := post.(reply := Some(Some(s.nextToken)))],
           live := s.live - {post.token} + {s.nextToken}, nextToken := s.nextToken + 1)
      else s.(posts := s.posts[p := post.(reply := Some(None))])
  }

  function LiveTokens(t: AuthTables.Tables): set<Token> {
    set j | j in t.tokens && t.tokens[j].revokedAt.None?
  }

  /** While nothing expires and nobody is deactivated, this is what the auth service's refresh
      does to its live tokens. */
  lemma ServingIsRefreshing(t: AuthTables.Tables, c: AuthTables.Config, token: Token, now: int)
    requires forall j :: j in LiveTokens(t) ==>
               j < t.nextJti && t.tokens[j].expiresAt > now && AuthTables.IsActiveUser(t, t.tokens[j].user)
    ensures AuthTables.RefreshOutcome(t, token, now) ==
            if token in LiveTokens(t) then Ok(t.nextJti) else Err(AuthTables.BadToken)
    ensures LiveTokens(AuthTables.AfterRefresh(t, c, token, now)) ==
            if token in LiveTokens(t) then LiveTokens(t) - {token} + {t.nextJti} else LiveTokens(t)
  {
  }

  /** The answer reaches the client. */
  function AfterDeliver(s: System, p: PostId): System {
    if !InFlight(s, p) || s.posts[p].reply.None? then s
    else
      var outcome := s.posts[p].reply.value;
      s.(posts := s.posts[p := s.posts[p].(settled := true)],
         client := if outcome.Some? then Refreshed(s.client, outcome.value) else RefreshFailed(s.client))
  }

  /** The client sees a network error instead; the server may have handled the post, may yet
      do so, or never will. */
  function AfterLoss(s: System, p: PostId): System {
    if !InFlight(s, p) then s
    else s.(posts := s.posts[p := s.posts[p].(settled := true)], client := RefreshFailed(s.client))
  }

  function Apply(s: System, e: Event): System {
    match e
    case Issue(toRefresh) => s.(client := Requested(s.client, toRefresh))
    case Answer(id) => if IsPending(s.client, id) then s.(client := Moved(s.client, id, Answered)) else s
    case Error(id, status) => AfterError(s, id, status)
    case Serve(p) => AfterServe(s, p)
    case Deliver(p) => AfterDeliver(s, p)
    case Lose(p) => AfterLoss(s, p)
  }

  function Run(events: seq<Event>): System {
    if events == [] then START else Apply(Run(events[..|events| - 1]), events[|events| - 1])
  }

  // ---------------------------------------------------------------------------
  // What holds in every interleaving
  // ---------------------------------------------------------------------------

  /** A request is handed to axios again at most once, and waits only for a refresh. */
  ghost predicate RequestsSound(c: Client) {
    && (forall id :: id in c.requests ==> id < c.nextRequest)
    && (forall id :: id in c.requests ==>
          var r := c.requests[id];
          && r.replays <= 1 && (!r.retried ==> r.replays == 0)
          && (r.phase == Waiting ==> r.retried && r.replays == 0 && c.refreshing.Some?))
    && (c.refreshing.Some? ==> SomeoneWaits(c.requests))
  }

  /** At most one refresh is under way, and it is the one the client waits for. */
  ghost predicate SingleFlight(s: System) {
    && (forall p :: p in s.posts ==> p < s.nextPost)
    && (forall p: PostId :: InFlight(s, p) <==> s.client.refreshing == Some(p))
  }

  /** No refresh token is posted twice, so none is refused. */
  ghost predicate PostedOnce(s: System) {
    && (forall p, q :: p in s.posts && q in s.posts && s.posts[p].token == s.posts[q].token ==> p == q)
    && (forall p :: p in s.posts ==>
          var post := s.posts[p];
          && (post.reply.None? ==> post.token in s.live)
          && (post.reply.Some? ==> post.token !in s.live && post.reply.value.Some?))
  }

  ghost predicate Unposted(s: System, token: Token) {
    forall p :: p in s.posts ==> s.posts[p].token != token
  }

  /** While a refresh is under way the stored token is the one posted; otherwise the stored
      token is live and was never posted. */
  ghost predicate StoredIsFresh(s: System) {
    && (s.client.refreshing.Some? && s.client.refreshing.value in s.posts ==>
          s.client.refresh == Some(s.posts[s.client.refreshing.value].token))
    && (s.client.refreshing.None? && s.client.refresh.Some? ==>
          s.client.refresh.value in s.live && Unposted(s, s.client.refresh.value))
  }

  /** What an unsettled post will bring is a live token nobody has posted. */
  ghost predicate RepliesAreFresh(s: System) {
    forall p :: InFlight(s, p) && s.posts[p].reply.Some? && s.posts[p].reply.value.Some? ==>
      s.posts[p].reply.value.value in s.live && Unposted(s, s.posts[p].reply.value.value)
  }

  ghost predicate Numbered(s: System) {
    && (forall j :: j in s.live ==> j < s.nextToken)
    && (forall p :: p in s.posts ==> s.posts[p].token < s.nextToken)
  }

  ghost predicate Sound(s: System) {
    && RequestsSound(s.client) && SingleFlight(s) && PostedOnce(s) && StoredIsFresh(s)
    && RepliesAreFresh(s) && Numbered(s)
  }

  lemma StepKeepsSound(s: System, e: Event)
    requires Sound(s)
    ensures Sound(Apply(s, e))
  {
    match e
    case Issue(toRefresh) => IssueKeepsSound(s, toRefresh);
    case Answer(id) => if IsPending(s.client, id) { AnswerKeepsSound(s, id, Answered); }
    case Error(id, status) => ErrorKeepsSound(s, id, status);
    case Serve(p) => ServeKeepsSound(s, p);
    case Deliver(p) => DeliverKeepsSound(s, p);
    case Lose(p) => LossKeepsSound(s, p);
  }

  lemma IssueKeepsSound(s: System, toRefresh: bool)
    requires Sound(s)
    ensures Sound(s.(client := Requested(s.client, toRefresh)))
  {
    var requests := Requested(s.client, toRefresh).requests;
    assert forall id :: id in s.client.requests ==> id in requests && requests[id] == s.client.requests[id];
  }

  lemma AnswerKeepsSound(s: System, id: RequestId, phase: Phase)
    requires Sound(s) && IsPending(s.client, id) && (phase == Answered || phase == Rejected)
    ensures Sound(s.(client := Moved(s.client, id, phase)))
  {
    assert forall k :: k in s.client.requests && k != id ==>
      Moved(s.client, id, phase).requests[k] == s.client.requests[k];
  }

  lemma ErrorKeepsSound(s: System, id: RequestId, status: Option<nat>)
    requires Sound(s)
    ensures Sound(AfterError(s, id, status))
  {
    if IsPending(s.client, id) {
      if Refreshable(s.client, id, status) {
        WaitKeepsSound(s, id, status);
      } else {
        AnswerKeepsSound(s, id, Rejected);
      }
    }
  }

  lemma WaitKeepsRequests(c: Client, id: RequestId, status: Option<nat>, next: PostId)
    requires RequestsSound(c) && IsPending(c, id) && Refreshable(c, id, status)
    ensures RequestsSound(Failed(c, id, status, next))
  {
    assert Failed(c, id, status, next).requests[id].phase == Waiting;
  }

  lemma WaitKeepsSound(s: System, id: RequestId, status: Option<nat>)
    requires Sound(s) && IsPending(s.client, id) && Refreshable(s.client, id, status)
    ensures Sound(AfterError(s, id, status))
  {
    WaitKeepsRequests(s.client, id, status, s.nextPost);
    hide RequestsSound;
    var after := AfterError(s, id, status);
    assert after.client == Failed(s.client, id, status, s.nextPost);
    if s.client.refreshing.None? {
      assert after.posts == s.posts[s.nextPost := Post(s.client.refresh.value, None, false)];
      assert forall p: PostId :: p != s.nextPost ==> (InFlight(after, p) <==> InFlight(s, p));
    } else {
      assert after == s.(client := after.client);
    }
  }

  lemma ServeKeepsSound(s: System, p: PostId)
    requires Sound(s)
    ensures Sound(AfterServe(s, p))
  {
    hide RequestsSound;
  }

  lemma SettledRequests(c: Client, token: Token)
    requires RequestsSound(c)
    ensures RequestsSound(Refreshed(c, token)) && RequestsSound(RefreshFailed(c))
    ensures forall id :: id in c.requests ==> Refreshed(c, token).requests[id].phase != Waiting
    ensures forall id :: id in c.requests ==> RefreshFailed(c).requests[id].phase != Waiting
  {
  }

  lemma DeliverKeepsSound(s: System, p: PostId)
    requires Sound(s)
    ensures Sound(AfterDeliver(s, p))
  {
    SettledRequests(s.client, if InFlight(s, p) && s.posts[p].reply.Some? && s.posts[p].reply.value.Some?
                              then s.posts[p].reply.value.value else 0);
    assert s.client.refreshing.Some? ==> SomeoneWaits(s.client.requests);
    hide RequestsSound, SomeoneWaits;
  }

  lemma LossKeepsSound(s: System, p: PostId)
    requires Sound(s)
    ensures Sound(AfterLoss(s, p))
  {
    SettledRequests(s.client, 0);
    assert s.client.refreshing.Some? ==> SomeoneWaits(s.client.requests);
    hide RequestsSound, SomeoneWaits;
  }

  lemma {:induction false} RunsAreSound(events: seq<Event>)
    ensures Sound(Run(events))
  {
    if events != [] {
      RunsAreSound(events[..|events| - 1]);
      StepKeepsSound(Run(events[..|events| - 1]), events[|events| - 1]);
    }
  }

  /** In every interleaving of requests, failures, refreshes and lost or late answers: at most
      one refresh is under way, no token is sent again after it was sent once, the server
      never refuses one, every request is replayed at most once, nobody waits without a
      refresh, and between refreshes the stored token is one the server would rotate. */
  lemma ProtocolIsSafe(events: seq<Event>)
    ensures var s := Run(events);
            && (forall p, q :: InFlight(s, p) && InFlight(s, q) ==> p == q)
            && (forall p, q :: p in s.posts && q in s.posts && s.posts[p].token == s.posts[q].token ==> p == q)
            && (forall p :: p in s.posts ==> s.posts[p].reply != Some(None))
            && (forall id :: id in s.client.requests ==> s.client.requests[id].replays <= 1)
            && ((exists id :: id in s.client.requests && s.client.requests[id].phase == Waiting) <==>
                s.client.refreshing.Some?)
            && (s.client.refreshing.None? && s.client.refresh.Some? ==> s.client.refresh.value in s.live)
  {
    RunsAreSound(events);
  }

  // ---------------------------------------------------------------------------
  // What one event brings about
  // ---------------------------------------------------------------------------

  /** All other requests are as they were. */
  ghost predicate OthersStay(c: Client, c': Client, id: RequestId) {
    && c'.requests.Keys == c.requests.Keys + {id}
    && forall k :: k in c.requests && k != id ==> c'.requests[k] == c.requests[k]
  }

  /** In every reachable state an error on a pending request makes it wait for a refresh if and
      only if the status is 401, it was not retried before, it is not the refresh call itself
      and a refresh token is at hand. If no refresh was under way, exactly that token is posted
      now; else the one under way is shared. Any other error rejects the request, and nothing
      else changes. */
  lemma ErrorStartsARefreshIff(events: seq<Event>, id: RequestId, status: Option<nat>)
    requires id in Run(events).client.requests && Run(events).client.requests[id].phase == Sent
    ensures var s, s' := Run(events), Run(events + [Error(id, status)]);
            var before := s.client.requests[id];
            var mends := status == Some(401) && !before.retried && !before.toRefresh && s.client.refresh.Some?;
            && OthersStay(s.client, s'.client, id) && s'.live == s.live
            && s'.client.access == s.client.access && s'.client.refresh == s.client.refresh
            && (mends ==>
                  && s'.client.requests[id] == Request(before.toRefresh, Waiting, true, before.access, before.replays)
                  && (s.client.refreshing.Some? ==> s'.client.refreshing == s.client.refreshing && s'.posts == s.posts)
                  && (s.client.refreshing.None? ==>
                        && s.nextPost !in s.posts && s'.client.refreshing == Some(s.nextPost)
                        && s'.posts == s.posts[s.nextPost := Post(s.client.refresh.value, None, false)]))
            && (!mends ==>
                  && s'.client.requests[id] == before.(phase := Rejected)
                  && s'.client.refreshing == s.client.refreshing && s'.posts == s.posts)
  {
    hide AfterError, Sound, Run;
    RunsAreSound(events);
    RunOneMore(events, Error(id, status));
    ErrorAnswers(Run(events), id, status);
  }

  lemma RunOneMore(events: seq<Event>, e: Event)
    ensures Run(events + [e]) == Apply(Run(events), e)
  {
    assert (events + [e])[..|events|] == events;
  }

  lemma ErrorAnswers(s: System, id: RequestId, status: Option<nat>)
    requires Sound(s) && id in s.client.requests && s.client.requests[id].phase == Sent
    ensures var s' := AfterError(s, id, status);
            var before := s.client.requests[id];
            var mends := status == Some(401) && !before.retried && !before.toRefresh && s.client.refresh.Some?;
            && OthersStay(s.client, s'.client, id) && s'.live == s.live
            && s'.client.access == s.client.access && s'.client.refresh == s.client.refresh
            && (mends ==>
                  && s'.client.requests[id] == Request(before.toRefresh, Waiting, true, before.access, before.replays)
                  && (s.client.refreshing.Some? ==> s'.client.refreshing == s.client.refreshing && s'.posts == s.posts)
                  && (s.client.refreshing.None? ==>
                        && s.nextPost !in s.posts && s'.client.refreshing == Some(s.nextPost)
                        && s'.posts == s.posts[s.nextPost := Post(s.client.refresh.value, None, false)]))
            && (!mends ==>
                  && s'.client.requests[id] == before.(phase := Rejected)
                  && s'.client.refreshing == s.client.refreshing && s'.posts == s.posts)
  {
    assert s.nextPost !in s.posts;
    hide Sound;
  }

  /** Once the post a refresh waits for is served and delivered, the token posted is dead, a
      new one is live and stored, everyone who waited is sent again, for the first time and
      with the new token, and nobody else notices. */
  lemma RefreshSendsWaitersAgain(events: seq<Event>, p: PostId)
    requires Run(events).client.refreshing == Some(p) && p in Run(events).posts && Run(events).posts[p].reply.None?
    ensures var s, s' := Run(events), Run(events + [Serve(p), Deliver(p)]);
            var token := s.nextToken;
            && s.posts[p].token in s.live && token !in s.live && s'.live == s.live - {s.posts[p].token} + {token}
            && s'.client.access == Some(token) && s'.client.refresh == Some(token) && s'.client.refreshing == None
            && s'.client.requests.Keys == s.client.requests.Keys
            && forall id :: id in s.client.requests ==>
                 s'.client.requests[id] ==
                   if s.client.requests[id].phase == Waiting
                   then Request(s.client.requests[id].toRefresh, Sent, true, Some(token), 1)
                   else s.client.requests[id]
  {
    RunsAreSound(events);
    var longer := events + [Serve(p), Deliver(p)];
    assert longer[..|longer| - 1][..|events|] == events;
    assert longer[..|longer| - 1] == events + [Serve(p)];
    ServedAndDelivered(Run(events), p);
  }

  lemma ServedAndDelivered(s: System, p: PostId)
    requires Sound(s) && s.client.refreshing == Some(p) && p in s.posts && s.posts[p].reply.None?
    ensures var s' := AfterDeliver(AfterServe(s, p), p);
            var token := s.nextToken;
            && s.posts[p].token in s.live && token !in s.live && s'.live == s.live - {s.posts[p].token} + {token}
            && s'.client.access == Some(token) && s'.client.refresh == Some(token) && s'.client.refreshing == None
            && s'.client.requests.Keys == s.client.requests.Keys
            && forall id :: id in s.client.requests ==>
                 s'.client.requests[id] ==
                   if s.client.requests[id].phase == Waiting
                   then Request(s.client.requests[id].toRefresh, Sent, true, Some(token), 1)
                   else s.client.requests[id]
  {
    assert InFlight(s, p);
  }

  /** If the refresh is lost instead, the tokens are gone and everyone who waited is rejected. */
  lemma LostRefreshRejectsWaiters(events: seq<Event>, p: PostId)
    requires Run(events).client.refreshing == Some(p)
    ensures var s, s' := Run(events), Run(events + [Lose(p)]);
            && s'.client.access == None && s'.client.refresh == None && s'.client.refreshing == None
            && s'.live == s.live && s'.client.requests.Keys == s.client.requests.Keys
            && forall id :: id in s.client.requests ==>
                 s'.client.requests[id] ==
                   if s.client.requests[id].phase == Waiting then s.client.requests[id].(phase := Rejected)
                   else s.client.requests[id]
  {
    RunsAreSound(events);
    assert (events + [Lose(p)])[..|events|] == events;
    assert InFlight(Run(events), p);
  }

  /** A new request carries the access token at hand, a successful answer settles it, and
      neither changes anything else. */
  lemma RequestsComeAndGo(events: seq<Event>, toRefresh: bool, id: RequestId)
    ensures var s := Run(events);
            var issued, answered := Run(events + [Issue(toRefresh)]), Run(events + [Answer(id)]);
            && s.client.nextRequest !in s.client.requests
            && issued == s.(client := issued.client) && OthersStay(s.client, issued.client, s.client.nextRequest)
            && issued.client.requests[s.client.nextRequest] == Request(toRefresh, Sent, false, s.client.access, 0)
            && issued.client.access == s.client.access && issued.client.refresh == s.client.refresh
            && issued.client.refreshing == s.client.refreshing
            && (id in s.client.requests && s.client.requests[id].phase == Sent ==>
                  && answered == s.(client := s.client.(requests := answered.client.requests))
                  && OthersStay(s.client, answered.client, id)
                  && answered.client.requests[id] == s.client.requests[id].(phase := Answered))
            && (!(id in s.client.requests && s.client.requests[id].phase == Sent) ==> answered == s)
  {
    RunsAreSound(events);
    assert (events + [Issue(toRefresh)])[..|events|] == events;
    assert (events + [Answer(id)])[..|events|] == events;
  }
}
