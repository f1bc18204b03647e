/**
 What clients are told, from the requests that clients sent: end to end over every interleaving, in the requests' own
 fields, clock readings and response codes.
 */
module Answers {
  import opened Options
  import opened AgentState
  import opened Server
  import Serving

  // ---------------------------------------------------------------------
  // Events, as a client sees them
  // ---------------------------------------------------------------------

  predicate Asks(t: Timed, req: Request) {
    t.event.Serve? && t.event.req == req
  }

  /** A logout, or a store that replaces whatever is held. */
  predicate LogsInOrOut(t: Timed) {
    && t.event.Serve?
    && (t.event.req.ReqClearSession? || (t.event.req.ReqStoreSession? && t.event.req.mode == Replace))
  }

  /** Any request that may put a session into the slot. */
  predicate MayStore(t: Timed) {
    t.event.RestoreStores? || (t.event.Serve? && t.event.req.ReqStoreSession?)
  }

  /** A plain-HTTP server that is neither loopback nor opted into. */
  predicate Refused(judge: UrlJudge, allowInsecure: bool, url: Option<string>) {
    url.Some? && judge(url.value) == InsecureHttp && !allowInsecure
  }

  /** The server URL that is kept: one that is secure, or insecure and opted into. */
  predicate KeptUrl(judge: UrlJudge, allowInsecure: bool, url: Option<string>, kept: Option<string>) {
    kept == if url.Some? && (judge(url.value) == Secure || (judge(url.value) == InsecureHttp && allowInsecure))
            then url else None
  }

  lemma OnlyLogsInOrOutEnd(judge: UrlJudge, t: Timed)
    ensures EndsSession(judge, t) ==> LogsInOrOut(t)
  {
  }

  // ---------------------------------------------------------------------
  // Response codes
  // ---------------------------------------------------------------------

  predicate Live(slot: Option<SessionSlot>, now: Time) {
    slot.Some? && now < slot.value.session.expiresAt
  }

  /** What is told of the session: its user, times and server, and the whole seconds left. */
  predicate Tells(response: Response, slot: SessionSlot, now: Time) {
    && response.SessionInfo?
    && response.email == slot.session.userEmail
    && response.expiresAt == slot.session.expiresAt
    && response.authenticatedAt == slot.session.authenticatedAt
    && response.serverUrl == slot.serverUrl
    && response.expiresInSeconds * 1_000_000_000
       <= slot.session.expiresAt - now < (response.expiresInSeconds + 1) * 1_000_000_000
  }

  /** The response to each request, from the request, the clock and the slot it meets. */
  predicate PlainResponse(env: Env, slot: Option<SessionSlot>, now: Time, req: Request, allowInsecure: bool,
                          response: Response)
  {
    match req
    case Unparsed => response == Error(-32700)
    case UnknownMethod => response == Error(-32601)
    case Malformed => response == Error(-32602)
    case ReqPing => response == Pong
    case ReqGetToken => response == if Live(slot, now) then Token(slot.value.session.token) else Error(-32000)
    case ReqGetSession => if Live(slot, now) then Tells(response, slot.value, now) else response == Error(-32000)
    case ReqHasSsh => response == Success(slot.Some? && slot.value.ssh.Some?)
    case ReqStoreSession(_, _, expiry, url, mode) =>
      response == if expiry.None? || Refused(env.judge, allowInsecure, url) then Error(-32602)
                  else Success(mode == Replace || !Live(slot, now))
    case ReqStoreSsh(_, _, loaded) =>
      response == if loaded.None? then Error(-32602)
                  else if !Live(slot, now) then Error(-32603)
                  else if env.issuedTo(loaded.value.keyId, slot.value.session.userEmail, slot.value.serverUrl)
                  then Success(true) else Error(-32602)
    case ReqCache(key, _, expiry) =>
      response == if expiry.None? || Utf8Len(key) > 256 then Error(-32602)
                  else if Live(slot, now) then Success(true) else Error(-32000)
    case ReqGetCached(_) => response == Error(-32002) || (Live(slot, now) && response.Credential?)
    case ReqClearSession => response == Success(true)
    case ReqClearSsh => response == Success(true)
    case ReqClearCache => response == Success(true)
  }

  lemma LookupResponds(env: Env, s: System, now: Time, req: Request, allow: bool, reply: Reply, response: Response,
                       s': System)
    requires ServeStep(env, s, now, req, allow, reply, s') && Responds(env.judge, now, req, allow, reply, response)
    requires req.ReqGetToken? || req.ReqGetSession? || req.ReqHasSsh? || req.ReqGetCached? || req.ReqPing?
    ensures PlainResponse(env, s.Slot(), now, req, allow, response)
  {
  }

  lemma StoreResponds(env: Env, s: System, now: Time, req: Request, allow: bool, reply: Reply, response: Response,
                      s': System)
    requires ServeStep(env, s, now, req, allow, reply, s') && Responds(env.judge, now, req, allow, reply, response)
    requires req.ReqStoreSession?
    ensures PlainResponse(env, s.Slot(), now, req, allow, response)
  {
  }

  lemma SshResponds(env: Env, s: System, now: Time, req: Request, allow: bool, reply: Reply, response: Response,
                    s': System)
    requires ServeStep(env, s, now, req, allow, reply, s') && Responds(env.judge, now, req, allow, reply, response)
    requires req.ReqStoreSsh?
    ensures PlainResponse(env, s.Slot(), now, req, allow, response)
  {
  }

  lemma CacheResponds(env: Env, s: System, now: Time, req: Request, allow: bool, reply: Reply, response: Response,
                      s': System)
    requires ServeStep(env, s, now, req, allow, reply, s') && Responds(env.judge, now, req, allow, reply, response)
    requires req.ReqCache?
    ensures PlainResponse(env, s.Slot(), now, req, allow, response)
  {
  }

  predicate AlwaysDone(req: Request) {
    || req.ReqClearSession? || req.ReqClearSsh? || req.ReqClearCache?
    || req.Unparsed? || req.UnknownMethod? || req.Malformed?
  }

  lemma FixedResponds(env: Env, s: System, now: Time, req: Request, allow: bool, reply: Reply, response: Response,
                      s': System)
    requires ServeStep(env, s, now, req, allow, reply, s') && Responds(env.judge, now, req, allow, reply, response)
    requires AlwaysDone(req)
    ensures PlainResponse(env, s.Slot(), now, req, allow, response)
  {
  }

  lemma StepResponds(env: Env, s: System, now: Time, req: Request, allow: bool, reply: Reply, response: Response,
                     s': System)
    requires ServeStep(env, s, now, req, allow, reply, s') && Responds(env.judge, now, req, allow, reply, response)
    ensures PlainResponse(env, s.Slot(), now, req, allow, response)
  {
    if req.ReqStoreSession? {
      StoreResponds(env, s, now, req, allow, reply, response, s');
    } else if req.ReqStoreSsh? {
      SshResponds(env, s, now, req, allow, reply, response, s');
    } else if req.ReqCache? {
      CacheResponds(env, s, now, req, allow, reply, response, s');
    } else if AlwaysDone(req) {
      FixedResponds(env, s, now, req, allow, reply, response, s');
    } else {
      LookupResponds(env, s, now, req, allow, reply, response, s');
    }
  }

  /** Over every interleaving each request gets the response its fields, the clock and the slot call for. */
  lemma ResponsesInPlainTerms(env: Env, systems: seq<System>, events: seq<Timed>, n: nat)
    requires IsSystemRun(env, systems, events) && n < |events| && events[n].event.Serve?
    ensures PlainResponse(env, systems[n].Slot(), events[n].now, events[n].event.req, events[n].event.allowInsecure,
                          events[n].event.response)
  {
    assert SystemStepAt(env, systems, events, n);
    StepResponds(env, systems[n], events[n].now, events[n].event.req, events[n].event.allowInsecure,
                 events[n].event.reply, events[n].event.response, systems[n + 1]);
  }

  // ---------------------------------------------------------------------
  // A login answers until it ends
  // ---------------------------------------------------------------------

  predicate AnswerableAt(events: seq<Timed>, from: nat, n: nat, expiry: Time)
    requires from <= n < |events|
  {
    events[n].now < expiry && forall m :: from <= m < n ==> !LogsInOrOut(events[m])
  }

  predicate AnsweredFrom(t: Timed, session: Session, url: Option<string>) {
    && (Asks(t, ReqGetToken) ==> t.event.response == Token(session.token))
    && (Asks(t, ReqGetSession) ==>
          && t.event.response.SessionInfo?
          && t.event.response.email == session.userEmail && t.event.response.expiresAt == session.expiresAt
          && t.event.response.authenticatedAt == session.authenticatedAt && t.event.response.serverUrl == url)
  }

  /** Until its expiry and the next login or logout, requests are answered from this session. */
  ghost predicate AnswersFor(events: seq<Timed>, from: nat, session: Session, url: Option<string>) {
    forall n :: from <= n < |events| && AnswerableAt(events, from, n, session.expiresAt) ==>
      AnsweredFrom(events[n], session, url)
  }

  lemma HeldUntil(env: Env, systems: seq<System>, events: seq<Timed>, from: nat, n: nat, session: Session,
                  url: Option<string>)
    requires IsSystemRun(env, systems, events) && from <= n < |events|
    requires AnswerableAt(events, from, n, session.expiresAt) && HoldsSession(systems[from], session, url)
    ensures HoldsSession(systems[n], session, url)
  {
    if from < n {
      assert events[n - 1].now <= events[n].now;
    }
    forall m | from <= m < n ensures !EndsSession(env.judge, events[m]) {
      OnlyLogsInOrOutEnd(env.judge, events[m]);
    }
    HeldSessionSurvives(env, systems, events, from, n, session, url);
  }

  lemma HeldSessionAnswers(env: Env, systems: seq<System>, events: seq<Timed>, from: nat, session: Session,
                           url: Option<string>)
    requires IsSystemRun(env, systems, events) && from <= |events| && HoldsSession(systems[from], session, url)
    ensures AnswersFor(events, from, session, url)
  {
    forall n | from <= n < |events| && AnswerableAt(events, from, n, session.expiresAt)
      ensures AnsweredFrom(events[n], session, url)
    {
      HeldUntil(env, systems, events, from, n, session, url);
      if events[n].event.Serve? {
        ResponsesInPlainTerms(env, systems, events, n);
      }
    }
  }

  lemma LoginHolds(env: Env, s: System, t: Timed, s': System, url: Option<string>)
    requires SystemStep(env, s, t, s') && t.event.Serve? && t.event.req.ReqStoreSession?
    requires t.event.req.mode == Replace || !Live(s.Slot(), t.now)
    requires t.event.req.sessionExpiry.Some? && !Refused(env.judge, t.event.allowInsecure, t.event.req.serverUrl)
    requires KeptUrl(env.judge, t.event.allowInsecure, t.event.req.serverUrl, url)
    ensures var req := t.event.req;
            HoldsSession(s', Session(req.token, req.email, req.sessionExpiry.value, t.now), url)
    ensures t.event.response == Success(true)
  {
  }

  /** After an accepted store every lookup is answered with that request's own fields, until that session ends. */
  lemma LoginAnswers(env: Env, systems: seq<System>, events: seq<Timed>, i: nat, url: Option<string>)
    requires IsSystemRun(env, systems, events) && i < |events| && events[i].event.Serve?
    requires var req := events[i].event.req;
             && req.ReqStoreSession? && req.sessionExpiry.Some?
             && (req.mode == Replace || !Live(systems[i].Slot(), events[i].now))
    requires !Refused(env.judge, events[i].event.allowInsecure, events[i].event.req.serverUrl)
    requires KeptUrl(env.judge, events[i].event.allowInsecure, events[i].event.req.serverUrl, url)
    ensures events[i].event.response == Success(true)
    ensures var req := events[i].event.req;
            AnswersFor(events, i + 1, Session(req.token, req.email, req.sessionExpiry.value, events[i].now), url)
  {
    var req := events[i].event.req;
    assert SystemStepAt(env, systems, events, i);
    LoginHolds(env, systems[i], events[i], systems[i + 1], url);
    var session := Session(req.token, req.email, req.sessionExpiry.value, events[i].now);
    HeldSessionAnswers(env, systems, events, i + 1, session, url);
  }

  // ---------------------------------------------------------------------
  // A restore answers like the login it restores
  // ---------------------------------------------------------------------

  lemma RestoreHolds(env: Env, s: System, t: Timed, s': System, url: Option<string>)
    requires SystemStep(env, s, t, s') && t.event.RestoreStores?
    requires var r := s.restores[t.event.client];
             && !Live(s.Slot(), t.now) && !Refused(env.judge, t.event.allowInsecure, Some(r.serverUrl))
             && KeptUrl(env.judge, t.event.allowInsecure, Some(r.serverUrl), url)
    ensures var r := s.restores[t.event.client];
            HoldsSession(s', Session(r.token, r.email, r.expiresAt, t.now), url)
    ensures t.event.response == Success(true)
  {
  }

  /** A restore that meets no live session is answered from what it loaded and checked, until that ends. */
  lemma RestoreAnswers(env: Env, systems: seq<System>, events: seq<Timed>, i: nat, url: Option<string>)
    requires IsSystemRun(env, systems, events) && i < |events| && events[i].event.RestoreStores?
    requires events[i].event.client in systems[i].restores && systems[i].restores[events[i].event.client].Checked?
    requires var r := systems[i].restores[events[i].event.client];
             && !Live(systems[i].Slot(), events[i].now)
             && !Refused(env.judge, events[i].event.allowInsecure, Some(r.serverUrl))
             && KeptUrl(env.judge, events[i].event.allowInsecure, Some(r.serverUrl), url)
    ensures events[i].event.response == Success(true)
    ensures var r := systems[i].restores[events[i].event.client];
            AnswersFor(events, i + 1, Session(r.token, r.email, r.expiresAt, events[i].now), url)
  {
    var r := systems[i].restores[events[i].event.client];
    assert SystemStepAt(env, systems, events, i);
    RestoreHolds(env, systems[i], events[i], systems[i + 1], url);
    HeldSessionAnswers(env, systems, events, i + 1, Session(r.token, r.email, r.expiresAt, events[i].now), url);
  }

  /** A checked restore carries the user and the whole seconds of validity that the server gave it. */
  lemma {:induction false} RestoreWasChecked(env: Env, systems: seq<System>, events: seq<Timed>, n: nat, client: nat)
    returns (m: nat)
    requires IsSystemRun(env, systems, events) && n <= |events|
    requires client in systems[n].restores && systems[n].restores[client].Checked?
    ensures m < n && events[m].event.RestoreChecks? && events[m].event.client == client
    ensures var e, r := events[m], systems[n].restores[client];
            && r.email == e.event.email
            && r.expiresAt % 1_000_000_000 == 0
            && r.expiresAt <= e.now + e.event.expiresIn * 1_000_000_000 < r.expiresAt + 1_000_000_000
  {
    assert SystemStepAt(env, systems, events, n - 1);
    var e := events[n - 1];
    if e.event.RestoreChecks? && e.event.client == client {
      m := n - 1;
    } else {
      assert client in systems[n - 1].restores && systems[n - 1].restores[client] == systems[n].restores[client];
      m := RestoreWasChecked(env, systems, events, n - 1, client);
    }
  }

  // ---------------------------------------------------------------------
  // A logout answers nothing
  // ---------------------------------------------------------------------

  lemma {:induction false} EmptySlotStays(env: Env, systems: seq<System>, events: seq<Timed>, from: nat, n: nat)
    requires IsSystemRun(env, systems, events) && from <= n <= |events| && systems[from].Slot().None?
    requires forall m :: from <= m < n ==> !MayStore(events[m])
    ensures systems[n].Slot().None?
  {
    if from < n {
      EmptySlotStays(env, systems, events, from, n - 1);
      InterleavingIsAgentRun(env, systems, events, n - 1);
      assert SystemStepAt(env, systems, events, n - 1);
      EmptySlotStep(env, systems[n - 1], events[n - 1], systems[n]);
    }
  }

  lemma OnlyStoresStore(judge: UrlJudge, s: System, t: Timed)
    requires OpOf(judge, s, t).Some? && !MayStore(t)
    ensures !OpOf(judge, s, t).value.StoreSession? && !OpOf(judge, s, t).value.StoreIfNoLiveSession?
  {
  }

  lemma EmptySlotStep(env: Env, s: System, t: Timed, s': System)
    requires SystemStep(env, s, t, s') && s.states != [] && s.Slot().None? && !MayStore(t)
    ensures s'.Slot().None?
  {
    var reply := StepRuns(env, s, t, s');
    if OpOf(env.judge, s, t).Some? {
      OnlyStoresStore(env.judge, s, t);
      StepKeepsSlot(env.issuedTo, s.Slot(), Record(t.now, OpOf(env.judge, s, t).value, reply), s'.Slot());
    }
  }

  lemma LogoutEmpties(env: Env, s: System, t: Timed, s': System)
    requires SystemStep(env, s, t, s') && LogsInOrOut(t)
    requires t.event.req.ReqStoreSession? ==>
               t.event.req.sessionExpiry.Some? && Refused(env.judge, t.event.allowInsecure, t.event.req.serverUrl)
    ensures s'.Slot().None?
  {
    var reply := StepRuns(env, s, t, s');
  }

  /** After a logout, or a login refused as insecure, nothing is answered until something is stored. */
  lemma LogoutAnswersNothing(env: Env, systems: seq<System>, events: seq<Timed>, i: nat, n: nat)
    requires IsSystemRun(env, systems, events) && i < n < |events| && LogsInOrOut(events[i])
    requires events[i].event.req.ReqStoreSession? ==>
               && events[i].event.req.sessionExpiry.Some?
               && Refused(env.judge, events[i].event.allowInsecure, events[i].event.req.serverUrl)
    requires forall m :: i < m < n ==> !MayStore(events[m])
    ensures Asks(events[n], ReqGetToken) || Asks(events[n], ReqGetSession) ==> events[n].event.response == Error(-32000)
    ensures events[n].event.Serve? && events[n].event.req.ReqGetCached? ==> events[n].event.response == Error(-32002)
    ensures Asks(events[n], ReqHasSsh) ==> events[n].event.response == Success(false)
  {
    assert SystemStepAt(env, systems, events, i);
    LogoutEmpties(env, systems[i], events[i], systems[i + 1]);
    EmptySlotStays(env, systems, events, i + 1, n);
    if events[n].event.Serve? {
      ResponsesInPlainTerms(env, systems, events, n);
    }
  }

  // ---------------------------------------------------------------------
  // A cached credential is answered
  // ---------------------------------------------------------------------

  lemma {:induction false} HistoryGrows(env: Env, systems: seq<System>, events: seq<Timed>, m: nat, n: nat)
    requires IsSystemRun(env, systems, events) && m <= n <= |events|
    ensures systems[m].trace <= systems[n].trace && systems[m].states <= systems[n].states
  {
    if m < n {
      HistoryGrows(env, systems, events, m, n - 1);
      assert SystemStepAt(env, systems, events, n - 1);
      var reply := StepRuns(env, systems[n - 1], events[n - 1], systems[n]);
    }
  }

  /** Record `x` of the agent's history is the step that event `m` took on the slot it met. */
  ghost predicate IsStepOf(env: Env, systems: seq<System>, events: seq<Timed>, m: nat, n: nat, x: nat)
    requires n < |systems| == |events| + 1
  {
    && m < n && x == |systems[m].trace| < |systems[n].trace| && x < |systems[n].states|
    && OpOf(env.judge, systems[m], events[m]) == Some(systems[n].trace[x].op)
    && systems[n].trace[x].now == events[m].now
    && systems[n].states[x] == systems[m].Slot()
  }

  lemma StepOfEvent(env: Env, systems: seq<System>, events: seq<Timed>, m: nat, n: nat)
    requires IsSystemRun(env, systems, events) && m < n <= |events|
    requires OpOf(env.judge, systems[m], events[m]).Some?
    ensures IsStepOf(env, systems, events, m, n, |systems[m].trace|)
    ensures |systems[m + 1].trace| == |systems[m].trace| + 1
    ensures systems[m + 1].trace[|systems[m].trace|] == systems[n].trace[|systems[m].trace|]
  {
    InterleavingIsAgentRun(env, systems, events, m);
    assert SystemStepAt(env, systems, events, m);
    var reply := StepRuns(env, systems[m], events[m], systems[m + 1]);
    HistoryGrows(env, systems, events, m + 1, n);
    HistoryGrows(env, systems, events, m, n);
  }

  lemma {:induction false} EventOfStep(env: Env, systems: seq<System>, events: seq<Timed>, from: nat, to: nat, n: nat,
                                       x: nat)
    returns (m: nat)
    requires IsSystemRun(env, systems, events) && from <= to <= n <= |events|
    requires |systems[from].trace| <= x < |systems[to].trace|
    ensures from <= m < to && IsStepOf(env, systems, events, m, n, x)
  {
    assert SystemStepAt(env, systems, events, to - 1);
    var reply := StepRuns(env, systems[to - 1], events[to - 1], systems[to]);
    if x < |systems[to - 1].trace| {
      m := EventOfStep(env, systems, events, from, to - 1, n, x);
    } else {
      m := to - 1;
      StepOfEvent(env, systems, events, m, n);
    }
  }

  /** A request that clears the cache or stores something else for the key. */
  predicate Overwrites(t: Timed, key: string) {
    t.event.Serve? && (t.event.req.ReqClearCache? || (t.event.req.ReqCache? && t.event.req.credentialType == key))
  }

  lemma QuietOp(judge: UrlJudge, s: System, t: Timed, key: string)
    requires OpOf(judge, s, t).Some? && !LogsInOrOut(t) && !Overwrites(t, key)
    ensures var op := OpOf(judge, s, t).value;
            && !op.StoreSession? && !op.ClearSession? && !op.ClearCache?
            && !(op.CacheCredential? && op.key == key)
  {
  }

  /** Under a login that still answers, a quiet event's step neither replaces the slot nor touches the key. */
  lemma QuietStep(env: Env, systems: seq<System>, events: seq<Timed>, m: nat, n: nat, x: nat, key: string)
    requires IsSystemRun(env, systems, events) && n <= |events| && IsStepOf(env, systems, events, m, n, x)
    requires IsRun(env.issuedTo, systems[n].states, systems[n].trace)
    requires Live(systems[m].Slot(), events[m].now) && !LogsInOrOut(events[m]) && !Overwrites(events[m], key)
    ensures Serving.LeavesKey(systems[n].trace[x], key)
  {
    QuietOp(env.judge, systems[m], events[m], key);
    Serving.RepliesInPlainTerms(env.issuedTo, systems[n].states, systems[n].trace, x);
  }

  lemma LookupReply(env: Env, s: System, t: Timed, s': System, key: string)
    requires SystemStep(env, s, t, s') && Asks(t, ReqGetCached(key))
    ensures OpOf(env.judge, s, t) == Some(GetCached(key)) && |s'.trace| == |s.trace| + 1
    ensures s'.trace[|s.trace|].reply.CachedIs?
    ensures t.event.response == var answer := s'.trace[|s.trace|].reply.answer;
                                if answer.Some? then Credential(answer.value) else Error(-32002)
  {
  }

  lemma CacheReply(env: Env, s: System, t: Timed, s': System, key: string, data: string, expiry: Time)
    requires SystemStep(env, s, t, s') && Asks(t, ReqCache(key, data, Some(expiry)))
    requires Live(s.Slot(), t.now) && Utf8Len(key) <= 256
    ensures t.event.response == Success(true) && |s'.trace| == |s.trace| + 1
    ensures s'.trace[|s.trace|] == Record(t.now, CacheCredential(key, CachedCredential(data, expiry, t.now)), Done)
    ensures OpOf(env.judge, s, t).Some?
  {
  }

  /** The records after event `j`'s and before event `n`'s leave the key alone. */
  lemma KeyIsLeftAlone(env: Env, systems: seq<System>, events: seq<Timed>, i: nat, j: nat, n: nat, key: string,
                       session: Session, url: Option<string>)
    requires IsSystemRun(env, systems, events) && i <= j < n < |events|
    requires HoldsSession(systems[i], session, url) && AnswerableAt(events, i, n, session.expiresAt)
    requires forall m :: j < m < n ==> !Overwrites(events[m], key)
    ensures Serving.KeyIsLeft(systems[n + 1].trace, |systems[j + 1].trace|, |systems[n].trace|, key)
  {
    HistoryGrows(env, systems, events, n, n + 1);
    InterleavingIsAgentRun(env, systems, events, n + 1);
    var trace := systems[n + 1].trace;
    forall x | |systems[j + 1].trace| <= x < |systems[n].trace| ensures Serving.LeavesKey(trace[x], key) {
      var m := EventOfStep(env, systems, events, j + 1, n, n + 1, x);
      assert events[m].now <= events[n].now;
      HeldUntil(env, systems, events, i, m, session, url);
      QuietStep(env, systems, events, m, n + 1, x, key);
    }
  }

  /** Event `j`'s record is the last that stored something for the key before event `n`'s lookup. */
  lemma CacheIsLast(env: Env, systems: seq<System>, events: seq<Timed>, i: nat, j: nat, n: nat, key: string,
                    data: string, until: Time, session: Session, url: Option<string>)
    requires IsSystemRun(env, systems, events) && i <= j < n < |events|
    requires HoldsSession(systems[i], session, url) && AnswerableAt(events, i, n, session.expiresAt)
    requires Asks(events[j], ReqCache(key, data, Some(until))) && Utf8Len(key) <= 256
    requires forall m :: j < m < n ==> !Overwrites(events[m], key)
    ensures events[j].event.response == Success(true)
    ensures Serving.LastCached(systems[n + 1].trace, |systems[j].trace|, |systems[n].trace|, key,
                               CachedCredential(data, until, events[j].now))
  {
    assert events[j].now <= events[n].now;
    assert SystemStepAt(env, systems, events, j);
    HeldUntil(env, systems, events, i, j, session, url);
    CacheReply(env, systems[j], events[j], systems[j + 1], key, data, until);
    StepOfEvent(env, systems, events, j, n + 1);
    HistoryGrows(env, systems, events, j + 1, n);
    KeyIsLeftAlone(env, systems, events, i, j, n, key, session, url);
  }

  /**
   While a session answers, a credential cached for a key is answered with the request's own data and expiry, exactly
   until it expires, is overwritten or cleared; the cache must never have been crowded.
   */
  lemma CachedCredentialAnswers(env: Env, systems: seq<System>, events: seq<Timed>, i: nat, j: nat, n: nat, key: string,
                                data: string, until: Time, session: Session, url: Option<string>)
    requires IsSystemRun(env, systems, events) && i <= j < n < |events|
    requires HoldsSession(systems[i], session, url) && AnswerableAt(events, i, n, session.expiresAt)
    requires Asks(events[j], ReqCache(key, data, Some(until))) && Utf8Len(key) <= 256
    requires forall m :: j < m < n ==> !Overwrites(events[m], key)
    requires Asks(events[n], ReqGetCached(key)) && NeverCrowded(env.issuedTo, systems[n + 1].trace)
    ensures events[j].event.response == Success(true)
    ensures events[n].event.response ==
            if events[n].now < until then Credential(CachedCredential(data, until, events[j].now)) else Error(-32002)
  {
    var a, b := |systems[j].trace|, |systems[n].trace|;
    CacheIsLast(env, systems, events, i, j, n, key, data, until, session, url);
    assert SystemStepAt(env, systems, events, n);
    LookupReply(env, systems[n], events[n], systems[n + 1], key);
    StepOfEvent(env, systems, events, n, n + 1);
    InterleavingIsAgentRun(env, systems, events, n + 1);
    HeldUntil(env, systems, events, i, n, session, url);
    Serving.CachedAnswerIs(env.issuedTo, systems[n + 1].states, systems[n + 1].trace, a, b, key,
                           CachedCredential(data, until, events[j].now));
  }

  // ---------------------------------------------------------------------
  // Clearing the cache, and certificates
  // ---------------------------------------------------------------------

  predicate LacksKey(s: System, key: string) {
    s.Slot().Some? ==> key !in s.Slot().value.cache
  }

  predicate Caches(t: Timed, key: string) {
    t.event.Serve? && t.event.req.ReqCache? && t.event.req.credentialType == key
  }

  lemma OnlyCachesInsert(judge: UrlJudge, s: System, t: Timed, key: string)
    requires OpOf(judge, s, t).Some? && !Caches(t, key)
    ensures var op := OpOf(judge, s, t).value; !(op.CacheCredential? && op.key == key)
  {
  }

  lemma AbsentKeyStays(issuedTo: Issuer, slot: Option<SessionSlot>, r: Record, slot': Option<SessionSlot>, key: string)
    requires Step(issuedTo, slot, r.now, r.op, r.reply, slot') && !(r.op.CacheCredential? && r.op.key == key)
    requires slot.Some? ==> |slot.value.cache| <= 128 && key !in slot.value.cache
    ensures slot'.Some? ==> key !in slot'.value.cache
  {
    if slot'.Some? && key in slot'.value.cache {
      EntryPersists(issuedTo, slot, r, slot', key);
    }
  }

  lemma LacksKeyStep(env: Env, s: System, t: Timed, s': System, key: string)
    requires SystemStep(env, s, t, s') && s.states != [] && LacksKey(s, key) && !Caches(t, key)
    requires s.Slot().Some? ==> |s.Slot().value.cache| <= 128
    ensures LacksKey(s', key)
  {
    var reply := StepRuns(env, s, t, s');
    if OpOf(env.judge, s, t).Some? {
      var op := OpOf(env.judge, s, t).value;
      OnlyCachesInsert(env.judge, s, t, key);
      AbsentKeyStays(env.issuedTo, s.Slot(), Record(t.now, op, reply), s'.Slot(), key);
    }
  }

  lemma {:induction false} KeyStaysAway(env: Env, systems: seq<System>, events: seq<Timed>, from: nat, n: nat,
                                        key: string)
    requires IsSystemRun(env, systems, events) && from <= n <= |events| && LacksKey(systems[from], key)
    requires forall m :: from <= m < n ==> !Caches(events[m], key)
    ensures LacksKey(systems[n], key)
  {
    if from < n {
      KeyStaysAway(env, systems, events, from, n - 1, key);
      InterleavingIsAgentRun(env, systems, events, n - 1);
      CacheFits(env.issuedTo, systems[n - 1].states, systems[n - 1].trace, |systems[n - 1].trace|);
      assert SystemStepAt(env, systems, events, n - 1);
      LacksKeyStep(env, systems[n - 1], events[n - 1], systems[n], key);
    }
  }

  lemma ClearEmptiesCache(env: Env, s: System, t: Timed, s': System, key: string)
    requires SystemStep(env, s, t, s') && s.states != [] && Asks(t, ReqClearCache)
    ensures LacksKey(s', key)
  {
    var reply := StepRuns(env, s, t, s');
  }

  lemma LackedKeyMisses(env: Env, s: System, t: Timed, s': System, key: string)
    requires SystemStep(env, s, t, s') && LacksKey(s, key) && Asks(t, ReqGetCached(key))
    ensures t.event.response == Error(-32002)
  {
  }

  /** After the cache is cleared a key is a miss until something is cached for it. */
  lemma ClearedCacheMisses(env: Env, systems: seq<System>, events: seq<Timed>, i: nat, n: nat, key: string)
    requires IsSystemRun(env, systems, events) && i < n < |events|
    requires Asks(events[i], ReqClearCache) && Asks(events[n], ReqGetCached(key))
    requires forall m :: i < m < n ==> !Caches(events[m], key)
    ensures events[n].event.response == Error(-32002)
  {
    InterleavingIsAgentRun(env, systems, events, i);
    assert SystemStepAt(env, systems, events, i) && SystemStepAt(env, systems, events, n);
    ClearEmptiesCache(env, systems[i], events[i], systems[i + 1], key);
    KeyStaysAway(env, systems, events, i + 1, n, key);
    LackedKeyMisses(env, systems[n], events[n], systems[n + 1], key);
  }

  /** A request or a lazy load that may put a certificate into the slot, or a request that takes it out. */
  predicate TouchesSsh(t: Timed) {
    t.event.LazyLoadSsh? || (t.event.Serve? && (t.event.req.ReqStoreSsh? || t.event.req.ReqClearSsh?))
  }

  predicate HoldsSsh(s: System, ssh: Option<SshCredentials>) {
    s.Slot().Some? && s.Slot().value.ssh == ssh
  }

  lemma OnlySshTouches(judge: UrlJudge, s: System, t: Timed)
    requires OpOf(judge, s, t).Some? && !TouchesSsh(t)
    ensures !OpOf(judge, s, t).value.StoreSsh? && !OpOf(judge, s, t).value.ClearSsh?
  {
  }

  lemma SshStepKeeps(issuedTo: Issuer, slot: Option<SessionSlot>, r: Record, slot': Option<SessionSlot>)
    requires Step(issuedTo, slot, r.now, r.op, r.reply, slot') && Live(slot, r.now)
    requires !r.op.StoreSession? && !r.op.ClearSession? && !r.op.StoreSsh? && !r.op.ClearSsh?
    ensures slot'.Some? && slot'.value.ssh == slot.value.ssh
  {
  }

  lemma SshStays(env: Env, s: System, t: Timed, s': System)
    requires SystemStep(env, s, t, s') && s.states != [] && Live(s.Slot(), t.now) && !LogsInOrOut(t) && !TouchesSsh(t)
    ensures HoldsSsh(s', s.Slot().value.ssh)
  {
    var reply := StepRuns(env, s, t, s');
    if OpOf(env.judge, s, t).Some? {
      var op := OpOf(env.judge, s, t).value;
      OnlySshTouches(env.judge, s, t);
      if op.StoreSession? || op.ClearSession? {
        OnlyEndingEventsStoreOrClear(env.judge, s, t);
        OnlyLogsInOrOutEnd(env.judge, t);
      }
      SshStepKeeps(env.issuedTo, s.Slot(), Record(t.now, op, reply), s'.Slot());
    }
  }

  /** While a session answers, its certificate, or the want of one, stays until a request or a load touches it. */
  lemma {:induction false} SshIsKept(env: Env, systems: seq<System>, events: seq<Timed>, from: nat, n: nat,
                                     session: Session, url: Option<string>, ssh: Option<SshCredentials>)
    requires IsSystemRun(env, systems, events) && from <= n < |events|
    requires HoldsSession(systems[from], session, url) && AnswerableAt(events, from, n, session.expiresAt)
    requires HoldsSsh(systems[from], ssh) && forall m :: from <= m < n ==> !TouchesSsh(events[m])
    ensures HoldsSsh(systems[n], ssh)
  {
    if from < n {
      assert events[n - 1].now <= events[n].now;
      SshIsKept(env, systems, events, from, n - 1, session, url, ssh);
      HeldUntil(env, systems, events, from, n - 1, session, url);
      InterleavingIsAgentRun(env, systems, events, n - 1);
      assert SystemStepAt(env, systems, events, n - 1);
      SshStays(env, systems[n - 1], events[n - 1], systems[n]);
    }
  }

  lemma SshStored(env: Env, s: System, t: Timed, s': System)
    requires SystemStep(env, s, t, s') && s.states != [] && t.event.Serve? && t.event.req.ReqStoreSsh?
    requires t.event.response == Success(true)
    ensures t.event.req.loaded.Some? && HoldsSsh(s', t.event.req.loaded)
  {
  }

  lemma SshCleared(env: Env, s: System, t: Timed, s': System)
    requires SystemStep(env, s, t, s') && s.states != [] && Asks(t, ReqClearSsh) && s.Slot().Some?
    ensures HoldsSsh(s', None)
  {
  }

  /** An accepted certificate is held, the very one loaded, and after a clear none is, until one or the other comes. */
  lemma SshRequestsTakeEffect(env: Env, systems: seq<System>, events: seq<Timed>, i: nat, n: nat, session: Session,
                              url: Option<string>)
    requires IsSystemRun(env, systems, events) && i < n < |events|
    requires HoldsSession(systems[i], session, url) && AnswerableAt(events, i, n, session.expiresAt)
    requires forall m :: i < m < n ==> !TouchesSsh(events[m])
    ensures events[i].event.Serve? && events[i].event.req.ReqStoreSsh? && events[i].event.response == Success(true) ==>
              && HoldsSsh(systems[n], events[i].event.req.loaded)
              && (Asks(events[n], ReqHasSsh) ==> events[n].event.response == Success(true))
    ensures Asks(events[i], ReqClearSsh) ==>
              && HoldsSsh(systems[n], None)
              && (Asks(events[n], ReqHasSsh) ==> events[n].event.response == Success(false))
  {
    InterleavingIsAgentRun(env, systems, events, i);
    assert SystemStepAt(env, systems, events, i);
    assert events[i].now <= events[n].now;
    HeldUntil(env, systems, events, i, n, session, url);
    HeldNext(env, systems, events, i, n, session, url);
    if events[i].event.Serve? && events[i].event.req.ReqStoreSsh? && events[i].event.response == Success(true) {
      SshStored(env, systems[i], events[i], systems[i + 1]);
      SshIsKept(env, systems, events, i + 1, n, session, url, events[i].event.req.loaded);
    }
    if Asks(events[i], ReqClearSsh) {
      SshCleared(env, systems[i], events[i], systems[i + 1]);
      SshIsKept(env, systems, events, i + 1, n, session, url, None);
    }
    if events[n].event.Serve? {
      ResponsesInPlainTerms(env, systems, events, n);
    }
  }

  lemma HeldNext(env: Env, systems: seq<System>, events: seq<Timed>, i: nat, n: nat, session: Session,
                 url: Option<string>)
    requires IsSystemRun(env, systems, events) && i < n < |events|
    requires HoldsSession(systems[i], session, url) && AnswerableAt(events, i, n, session.expiresAt)
    ensures HoldsSession(systems[i + 1], session, url)
  {
    assert events[i + 1].now <= events[n].now;
    assert AnswerableAt(events, i, i + 1, session.expiresAt);
    HeldUntil(env, systems, events, i, i + 1, session, url);
  }
}
