/**
 The agent's request handlers, and the command-line clients that race on the agent.

 A handler judges its request, performs at most one lock-held step on the agent, and then
 writes at most one audit event. Between the step and the write another request may run, so the
 interleaved system keeps the events that are accepted but not yet written in `pending`.

 A restore is three separate steps of a client: load the saved login, check it with the
 server, and store it if the agent holds no live session. A login is a save followed by a store.
 A save is two steps, for the configuration file is loaded, edited and written back whole, and another
 process may write it in between.
 */
module Server {
  import opened Options
  import opened AgentState
  import opened SavedLogin
  import Config
  import ServerUrl

  datatype UrlVerdict = Secure | InsecureHttp | Unsupported

  /** `Unsupported` is a URL that does not parse or whose scheme is neither http nor https. */
  type UrlJudge = string -> UrlVerdict

  datatype StoreMode = Replace | IfNoLiveSession

  /**
   A request as it arrives: text that is no request, a method nobody knows, parameters that do not fit, or a parsed
   request, where `None` marks a timestamp that does not parse or files that do not load.
   */
  datatype Request =
    | Unparsed
    | UnknownMethod
    | Malformed
    | ReqPing
    | ReqGetToken
    | ReqHasSsh
    | ReqStoreSession(token: string, email: string, sessionExpiry: Option<Time>, serverUrl: Option<string>,
                      mode: StoreMode)
    | ReqClearSession
    | ReqStoreSsh(keyPath: string, certPath: string, loaded: Option<SshCredentials>)
    | ReqClearSsh
    | ReqCache(credentialType: string, data: string, credentialExpiry: Option<Time>)
    | ReqClearCache
    | ReqGetCached(credentialType: string)
    | ReqGetSession

  const PARSE_ERROR := -32700
  const METHOD_NOT_FOUND := -32601
  const INVALID_PARAMS := -32602
  const INTERNAL_ERROR := -32603
  const NOT_AUTHENTICATED := -32000
  const CACHE_MISS := -32002

  datatype Response =
    | Pong
    | Success(flag: bool)
    | Token(token: string)
    | SessionInfo(email: string, expiresAt: Time, authenticatedAt: Time, expiresInSeconds: nat,
                  serverUrl: Option<string>)
    | Credential(cred: CachedCredential)
    | Error(code: int)

  datatype AuditEvent =
    | SessionStored(email: string)
    | SessionCleared
    | SshCertProvisioned(keyPath: string, certPath: string)
    | CredentialCached(credentialType: string)
    | CredentialCacheCleared

  /** What a request comes to once it is judged: an answer alone, a clear and a refusal, or one step on the agent. */
  datatype Plan = Answer(response: Response) | ClearAndRefuse | Perform(op: Op)

  const REFUSE := Plan.Answer(Error(INVALID_PARAMS))

  function PlanFor(judge: UrlJudge, allowInsecure: bool, now: Time, req: Request): Plan {
    match req
    case Unparsed => Plan.Answer(Error(PARSE_ERROR))
    case UnknownMethod => Plan.Answer(Error(METHOD_NOT_FOUND))
    case Malformed => REFUSE
    case ReqPing => Plan.Answer(Pong)
    case ReqGetToken => Perform(GetToken)
    case ReqHasSsh => Perform(HasSsh)
    case ReqStoreSession(token, email, expiry, url, mode) =>
      if expiry.None? then REFUSE
      else if url.Some? && judge(url.value) == InsecureHttp && !allowInsecure then
        if mode == Replace then ClearAndRefuse else REFUSE
      else
        var session := Session(token, email, expiry.value, now);
        var kept := if url.Some? && judge(url.value) != Unsupported then url else None;
        Perform(if mode == Replace then StoreSession(session, kept) else StoreIfNoLiveSession(session, kept))
    case ReqClearSession => Perform(ClearSession)
    case ReqStoreSsh(_, _, loaded) => if loaded.None? then REFUSE else Perform(StoreSsh(loaded.value))
    case ReqClearSsh => Perform(ClearSsh)
    case ReqCache(key, data, expiry) =>
      if expiry.None? then REFUSE
      else Perform(CacheCredential(key, CachedCredential(data, expiry.value, now)))
    case ReqClearCache => Perform(ClearCache)
    case ReqGetCached(key) => Perform(GetCached(key))
    case ReqGetSession => Perform(GetSession)
  }

  function AuditFor(req: Request, reply: Reply): seq<AuditEvent> {
    match req
    case ReqStoreSession(_, email, _, _, _) => if reply == Stored(true) then [SessionStored(email)] else []
    case ReqClearSession => [SessionCleared]
    case ReqStoreSsh(key, cert, _) => if reply == Done then [SshCertProvisioned(key, cert)] else []
    case ReqCache(key, _, _) => if reply == Done then [CredentialCached(key)] else []
    case ReqClearCache => [CredentialCacheCleared]
    case _ => []
  }

  /** What is told of a session: everything but its token. */
  function SessionResponse(current: Option<(Session, Option<string>)>, now: Time): Response {
    if current.None? then Error(NOT_AUTHENTICATED)
    else
      var (session, url) := current.value;
      SessionInfo(session.userEmail, session.expiresAt, session.authenticatedAt, session.ExpiresInSeconds(now), url)
  }

  /** The response once the step gave `reply`. */
  function ResponseFor(reply: Reply, now: Time): Response
    requires !reply.SshIs?
  {
    match reply
    case Done => Success(true)
    case Stored(stored) => Success(stored)
    case SshRefused(NoSshSession) => Error(INTERNAL_ERROR)
    case SshRefused(NotIssuedToSession) => Error(INVALID_PARAMS)
    case CacheRefused(KeyTooLong) => Error(INVALID_PARAMS)
    case CacheRefused(NoSession) => Error(NOT_AUTHENTICATED)
    case SessionIs(current) => SessionResponse(current, now)
    case TokenIs(token) => if token.Some? then Token(token.value) else Error(NOT_AUTHENTICATED)
    case SshHeld(held) => Success(held)
    case CachedIs(answer) => if answer.Some? then Credential(answer.value) else Error(CACHE_MISS)
  }

  /** What one completed request did to the agent's trace and to the audit log. */
  ghost predicate Served(judge: UrlJudge, allowInsecure: bool, now: Time, req: Request, trace: seq<Record>,
                         audit: seq<AuditEvent>, trace': seq<Record>, audit': seq<AuditEvent>, response: Response)
  {
    match PlanFor(judge, allowInsecure, now, req)
    case Answer(answer) => trace' == trace && audit' == audit && response == answer
    case ClearAndRefuse =>
      trace' == trace + [Record(now, ClearSession, Done)] && audit' == audit && response == Error(INVALID_PARAMS)
    case Perform(op) =>
      exists reply: Reply :: && !reply.SshIs?
                             && trace' == trace + [Record(now, op, reply)]
                             && audit' == audit + AuditFor(req, reply)
                             && response == ResponseFor(reply, now)
  }

  class AgentServer {
    const agent: Agent
    const judge: UrlJudge
    var audit: seq<AuditEvent>

    constructor (agent: Agent, judge: UrlJudge)
      ensures this.agent == agent && this.judge == judge && audit == []
    {
      this.agent, this.judge, this.audit := agent, judge, [];
    }

    method LogEvent(event: AuditEvent)
      modifies this
      ensures audit == old(audit) + [event]
    {
      audit := audit + [event];
    }

    method HandleStoreSession(now: Time, allowInsecure: bool, req: Request) returns (response: Response)
      requires req.ReqStoreSession? && agent.Valid() && agent.ClockAt(now)
      modifies this, agent
      ensures agent.Valid()
      ensures old(agent.states) <= agent.states
      ensures Served(judge, allowInsecure, now, req, old(agent.trace), old(audit), agent.trace, audit, response)
    {
      if req.sessionExpiry.None? {
        return Error(INVALID_PARAMS);
      }
      var serverUrl: Option<string> := None;
      if req.serverUrl.Some? {
        match judge(req.serverUrl.value)
        case Secure => serverUrl := req.serverUrl;
        case Unsupported =>
        case InsecureHttp =>
          if allowInsecure {
            serverUrl := req.serverUrl;
          } else {
            if req.mode == Replace {
              agent.ClearSession(now);
            }
            return Error(INVALID_PARAMS);
          }
      }
      var session := Session(req.token, req.email, req.sessionExpiry.value, now);
      var stored := true;
      if req.mode == Replace {
        agent.StoreSession(now, session, serverUrl);
      } else {
        stored := agent.StoreSessionIfNoLiveSession(now, session, serverUrl);
      }
      if stored {
        LogEvent(SessionStored(req.email));
      }
      response := Success(stored);
      assert response == ResponseFor(Stored(stored), now);
    }

    method HandleClearSession(now: Time) returns (response: Response)
      requires agent.Valid() && agent.ClockAt(now)
      modifies this, agent
      ensures agent.Valid() && agent.slot == None
      ensures old(agent.states) <= agent.states
      ensures Served(judge, false, now, ReqClearSession, old(agent.trace), old(audit), agent.trace, audit, response)
    {
      agent.ClearSession(now);
      LogEvent(SessionCleared);
      response := Success(true);
      assert response == ResponseFor(Done, now);
    }

    method HandleStoreSsh(now: Time, req: Request) returns (response: Response)
      requires req.ReqStoreSsh? && agent.Valid() && agent.ClockAt(now)
      modifies this, agent
      ensures agent.Valid()
      ensures old(agent.states) <= agent.states
      ensures Served(judge, false, now, req, old(agent.trace), old(audit), agent.trace, audit, response)
    {
      if req.loaded.None? {
        return Error(INVALID_PARAMS);
      }
      var refusal := agent.StoreSshCredentials(now, req.loaded.value);
      ghost var reply := if refusal.None? then Done else SshRefused(refusal.value);
      match refusal {
        case None =>
          LogEvent(SshCertProvisioned(req.keyPath, req.certPath));
          response := Success(true);
        case Some(NoSshSession) => response := Error(INTERNAL_ERROR);
        case Some(NotIssuedToSession) => response := Error(INVALID_PARAMS);
      }
      assert response == ResponseFor(reply, now);
    }

    method HandleCacheCredential(now: Time, req: Request) returns (response: Response)
      requires req.ReqCache? && agent.Valid() && agent.ClockAt(now)
      modifies this, agent
      ensures agent.Valid()
      ensures old(agent.states) <= agent.states
      ensures Served(judge, false, now, req, old(agent.trace), old(audit), agent.trace, audit, response)
    {
      if req.credentialExpiry.None? {
        return Error(INVALID_PARAMS);
      }
      var cred := CachedCredential(req.data, req.credentialExpiry.value, now);
      var refusal := agent.CacheCredential(now, req.credentialType, cred);
      ghost var reply := if refusal.None? then Done else CacheRefused(refusal.value);
      match refusal {
        case None =>
          LogEvent(CredentialCached(req.credentialType));
          response := Success(true);
        case Some(KeyTooLong) => response := Error(INVALID_PARAMS);
        case Some(NoSession) => response := Error(NOT_AUTHENTICATED);
      }
      assert response == ResponseFor(reply, now);
    }

    method HandleClearSsh(now: Time) returns (response: Response)
      requires agent.Valid() && agent.ClockAt(now)
      modifies this, agent
      ensures agent.Valid()
      ensures old(agent.states) <= agent.states
      ensures Served(judge, false, now, ReqClearSsh, old(agent.trace), old(audit), agent.trace, audit, response)
    {
      agent.ClearSshCredentials(now);
      response := Success(true);
      assert response == ResponseFor(Done, now);
    }

    method HandleClearCache(now: Time) returns (response: Response)
      requires agent.Valid() && agent.ClockAt(now)
      modifies this, agent
      ensures agent.Valid()
      ensures old(agent.states) <= agent.states
      ensures Served(judge, false, now, ReqClearCache, old(agent.trace), old(audit), agent.trace, audit, response)
    {
      agent.ClearCredentialCache(now);
      LogEvent(CredentialCacheCleared);
      response := Success(true);
      assert response == ResponseFor(Done, now);
    }

    method HandleGetCached(now: Time, key: string) returns (response: Response)
      requires agent.Valid() && agent.ClockAt(now)
      modifies agent
      ensures agent.Valid() && agent.slot == old(agent.slot)
      ensures old(agent.states) <= agent.states
      ensures Served(judge, false, now, ReqGetCached(key), old(agent.trace), old(audit), agent.trace, audit, response)
    {
      var answer := agent.GetCachedCredential(now, key);
      response := if answer.Some? then Credential(answer.value) else Error(CACHE_MISS);
      assert response == ResponseFor(CachedIs(answer), now);
    }

    method HandleGetSession(now: Time) returns (response: Response)
      requires agent.Valid() && agent.ClockAt(now)
      modifies agent
      ensures agent.Valid() && agent.slot == old(agent.slot)
      ensures old(agent.states) <= agent.states
      ensures Served(judge, false, now, ReqGetSession, old(agent.trace), old(audit), agent.trace, audit, response)
    {
      var current := agent.SessionInfo(now);
      response := if current.None? then Error(NOT_AUTHENTICATED)
                  else SessionInfo(current.value.0.userEmail, current.value.0.expiresAt,
                                   current.value.0.authenticatedAt, current.value.0.ExpiresInSeconds(now),
                                   current.value.1);
      assert response == ResponseFor(SessionIs(current), now);
    }

    method HandleGetToken(now: Time) returns (response: Response)
      requires agent.Valid() && agent.ClockAt(now)
      modifies agent
      ensures agent.Valid() && agent.slot == old(agent.slot)
      ensures old(agent.states) <= agent.states
      ensures Served(judge, false, now, ReqGetToken, old(agent.trace), old(audit), agent.trace, audit, response)
    {
      var token := agent.GetToken(now);
      response := if token.Some? then Token(token.value) else Error(NOT_AUTHENTICATED);
      assert response == ResponseFor(TokenIs(token), now);
    }

    method HandleHasSsh(now: Time) returns (response: Response)
      requires agent.Valid() && agent.ClockAt(now)
      modifies agent
      ensures agent.Valid() && agent.slot == old(agent.slot)
      ensures old(agent.states) <= agent.states
      ensures Served(judge, false, now, ReqHasSsh, old(agent.trace), old(audit), agent.trace, audit, response)
    {
      var held := agent.HasSshCredentials(now);
      response := Success(held);
      assert response == ResponseFor(SshHeld(held), now);
    }

    /** Dispatch one request; each is at most one step of the agent's run and at most one audit event. */
    method HandleRequest(now: Time, allowInsecure: bool, req: Request) returns (response: Response)
      requires agent.Valid() && agent.ClockAt(now)
      modifies this, agent
      ensures agent.Valid()
      ensures old(agent.states) <= agent.states
      ensures Served(judge, allowInsecure, now, req, old(agent.trace), old(audit), agent.trace, audit, response)
    {
      match req
      case Unparsed => response := Error(PARSE_ERROR);
      case UnknownMethod => response := Error(METHOD_NOT_FOUND);
      case Malformed => response := Error(INVALID_PARAMS);
      case ReqPing => response := Pong;
      case ReqGetToken => response := HandleGetToken(now);
      case ReqHasSsh => response := HandleHasSsh(now);
      case ReqStoreSession(_, _, _, _, _) => response := HandleStoreSession(now, allowInsecure, req);
      case ReqClearSession => response := HandleClearSession(now);
      case ReqStoreSsh(_, _, _) => response := HandleStoreSsh(now, req);
      case ReqClearSsh => response := HandleClearSsh(now);
      case ReqCache(_, _, _) => response := HandleCacheCredential(now, req);
      case ReqClearCache => response := HandleClearCache(now);
      case ReqGetCached(key) => response := HandleGetCached(now, key);
      case ReqGetSession => response := HandleGetSession(now);
    }
  }

  // ---------------------------------------------------------------------
  // The interleaved system
  // ---------------------------------------------------------------------

  /** Where a restore has got to: the saved login it loaded, then the session it checked. */
  datatype Restore =
    | Loaded(token: string, serverUrl: string)
    | Checked(token: string, serverUrl: string, email: string, expiresAt: Time)

  datatype System = System(
    states: seq<Option<SessionSlot>>,
    trace: seq<Record>,
    audit: seq<AuditEvent>,
    pending: multiset<AuditEvent>,
    config: Config.Servers,
    loaded: map<nat, Config.Servers>,
    restores: map<nat, Restore>)
  {
    function Slot(): Option<SessionSlot> {
      if states == [] then None else states[|states| - 1]
    }
  }

  const START := System([None], [], [], multiset{}, NO_SERVERS, map[], map[])

  datatype Env = Env(judge: UrlJudge, issuedTo: Issuer, hostOf: Config.HostOf)

  datatype Event =
    | Serve(req: Request, allowInsecure: bool, reply: Reply, response: Response)
    | WriteAudit(event: AuditEvent)
    | LazyLoadSsh(creds: SshCredentials, reply: Reply)
    | ConfigLoads(client: nat)
    | ConfigSaves(client: nat, edit: Edit)
    | RestoreLoads(client: nat)
    | RestoreChecks(client: nat, email: string, expiresIn: nat)
    | RestoreGivesUp(client: nat)
    | RestoreStores(client: nat, allowInsecure: bool, reply: Reply, response: Response)

  datatype Timed = Timed(now: Time, event: Event)

  /** The agent took one step and its history grew by it. */
  ghost predicate Ran(issuedTo: Issuer, s: System, now: Time, op: Op, reply: Reply, s': System) {
    && s'.states == s.states + [s'.Slot()]
    && s'.trace == s.trace + [Record(now, op, reply)]
    && Step(issuedTo, s.Slot(), now, op, reply, s'.Slot())
  }

  ghost predicate ServeStep(env: Env, s: System, now: Time, req: Request,
                            allowInsecure: bool, reply: Reply, s': System)
  {
    match PlanFor(env.judge, allowInsecure, now, req)
    case Answer(_) => s' == s
    case ClearAndRefuse =>
      && Ran(env.issuedTo, s, now, ClearSession, Done, s')
      && s' == s.(states := s'.states, trace := s'.trace)
    case Perform(op) =>
      && Ran(env.issuedTo, s, now, op, reply, s')
      && s' == s.(states := s'.states, trace := s'.trace, pending := s.pending + multiset(AuditFor(req, reply)))
  }

  /** The response a request gets when its step, if it takes one, gives `reply`. */
  predicate Responds(judge: UrlJudge, now: Time, req: Request, allowInsecure: bool, reply: Reply, response: Response) {
    match PlanFor(judge, allowInsecure, now, req)
    case Answer(answer) => response == answer
    case ClearAndRefuse => response == Error(INVALID_PARAMS)
    case Perform(_) => !reply.SshIs? && response == ResponseFor(reply, now)
  }

  /** The request a restore sends once the server confirmed the saved login. */
  function RestoreRequest(r: Restore): Request
    requires r.Checked?
  {
    ReqStoreSession(r.token, r.email, Some(r.expiresAt), Some(r.serverUrl), IfNoLiveSession)
  }

  /** A command saves a server URL without trailing slashes, and a logout saves only if there was a token. */
  predicate Saves(hostOf: Config.HostOf, s: Config.Servers, edit: Edit) {
    && (edit.Unrelated? || ServerUrl.TrimSlashes(edit.url) == edit.url)
    && (edit.Logout? ==>
          var named := Config.WithServerUrl(hostOf, s, edit.url);
          named.Current().Some? && named.Current().value.token.Some?)
  }

  ghost predicate SystemStep(env: Env, s: System, t: Timed, s': System) {
    match t.event
    case Serve(req, allow, reply, response) =>
      ServeStep(env, s, t.now, req, allow, reply, s') && Responds(env.judge, t.now, req, allow, reply, response)
    case WriteAudit(event) =>
      event in s.pending && s' == s.(pending := s.pending - multiset{event}, audit := s.audit + [event])
    case LazyLoadSsh(creds, reply) =>
      && Ran(env.issuedTo, s, t.now, StoreSsh(creds), reply, s')
      && s' == s.(states := s'.states, trace := s'.trace)
    case ConfigLoads(c) => s' == s.(loaded := s.loaded[c := s.config])
    case ConfigSaves(c, edit) =>
      && c in s.loaded && Saves(env.hostOf, s.loaded[c], edit)
      && s' == s.(config := Edited(env.hostOf, s.loaded[c], edit), loaded := s.loaded - {c})
    case RestoreLoads(c) =>
      && s.config.Current().Some? && s.config.Current().value.token.Some?
      && var entry := s.config.Current().value;
         s' == s.(restores := s.restores[c := Loaded(entry.token.value, ServerUrl.TrimSlashes(entry.serverUrl))])
    case RestoreChecks(c, email, expiresIn) =>
      && c in s.restores && s.restores[c].Loaded?
      && var r := s.restores[c];
         var expiresAt := (t.now / NANOS_PER_SECOND + expiresIn) * NANOS_PER_SECOND;
         s' == s.(restores := s.restores[c := Checked(r.token, r.serverUrl, email, expiresAt)])
    case RestoreGivesUp(c) => s' == s.(restores := s.restores - {c})
    case RestoreStores(c, allow, reply, response) =>
      && c in s.restores && s.restores[c].Checked?
      && Responds(env.judge, t.now, RestoreRequest(s.restores[c]), allow, reply, response)
      && ServeStep(env, s.(restores := s.restores - {c}), t.now, RestoreRequest(s.restores[c]), allow,
                   reply, s')
  }

  ghost predicate SystemStepAt(env: Env, systems: seq<System>, events: seq<Timed>, i: nat)
    requires i < |events| && |systems| == |events| + 1
  {
    SystemStep(env, systems[i], events[i], systems[i + 1])
  }

  ghost predicate IsSystemRun(env: Env, systems: seq<System>, events: seq<Timed>) {
    && |systems| == |events| + 1
    && systems[0] == START.(config := systems[0].config)
    && (forall i, j :: 0 <= i <= j < |events| ==> events[i].now <= events[j].now)
    && (forall i :: 0 <= i < |events| ==> SystemStepAt(env, systems, events, i))
  }

  lemma RanExtendsRun(issuedTo: Issuer, s: System, now: Time, op: Op, reply: Reply, s': System)
    requires IsRun(issuedTo, s.states, s.trace) && Ran(issuedTo, s, now, op, reply, s')
    requires s.trace != [] ==> s.trace[|s.trace| - 1].now <= now
    ensures IsRun(issuedTo, s'.states, s'.trace)
  {
    forall i | 0 <= i < |s'.trace| ensures StepAt(issuedTo, s'.states, s'.trace, i) {
      assert i < |s.trace| ==> StepAt(issuedTo, s.states, s.trace, i);
    }
  }

  /** The one operation an event performs on the agent, if any. */
  function OpOf(judge: UrlJudge, s: System, t: Timed): Option<Op> {
    match t.event
    case Serve(req, allow, _, _) => PlannedOp(PlanFor(judge, allow, t.now, req))
    case LazyLoadSsh(creds, _) => Some(StoreSsh(creds))
    case RestoreStores(c, allow, _, _) =>
      if c in s.restores && s.restores[c].Checked?
      then PlannedOp(PlanFor(judge, allow, t.now, RestoreRequest(s.restores[c])))
      else None
    case _ => None
  }

  function PlannedOp(plan: Plan): Option<Op> {
    match plan
    case Answer(_) => None
    case ClearAndRefuse => Some(ClearSession)
    case Perform(op) => Some(op)
  }

  lemma StepRuns(env: Env, s: System, t: Timed, s': System) returns (reply: Reply)
    requires SystemStep(env, s, t, s')
    ensures OpOf(env.judge, s, t).None? ==> s'.states == s.states && s'.trace == s.trace
    ensures OpOf(env.judge, s, t).Some? ==> Ran(env.issuedTo, s, t.now, OpOf(env.judge, s, t).value, reply, s')
  {
    reply := if s'.trace == [] then Done else s'.trace[|s'.trace| - 1].reply;
  }

  lemma StepExtendsRun(env: Env, s: System, t: Timed, s': System)
    requires IsRun(env.issuedTo, s.states, s.trace) && SystemStep(env, s, t, s')
    requires s.trace != [] ==> s.trace[|s.trace| - 1].now <= t.now
    ensures IsRun(env.issuedTo, s'.states, s'.trace)
    ensures s'.trace != [] ==> s'.trace[|s'.trace| - 1].now <= t.now
  {
    var reply := StepRuns(env, s, t, s');
    if OpOf(env.judge, s, t).Some? {
      RanExtendsRun(env.issuedTo, s, t.now, OpOf(env.judge, s, t).value, reply, s');
    }
  }

  /** Every interleaving drives the agent through a run, so all that is proved of runs holds of it. */
  lemma {:induction false} InterleavingIsAgentRun(
    env: Env, systems: seq<System>, events: seq<Timed>, n: nat)
    requires IsSystemRun(env, systems, events) && n <= |events|
    ensures IsRun(env.issuedTo, systems[n].states, systems[n].trace)
    ensures systems[n].trace != [] ==> n > 0 && systems[n].trace[|systems[n].trace| - 1].now <= events[n - 1].now
  {
    if n > 0 {
      InterleavingIsAgentRun(env, systems, events, n - 1);
      if n > 1 {
        assert events[n - 2].now <= events[n - 1].now;
      }
      assert SystemStepAt(env, systems, events, n - 1);
      StepExtendsRun(env, systems[n - 1], events[n - 1], systems[n]);
    }
  }

  lemma LastStepRan(env: Env, s: System, states': seq<Option<SessionSlot>>, trace': seq<Record>, r: Record)
    requires |s.states| == |s.trace| + 1 && s.states <= states' && IsRun(env.issuedTo, states', trace')
    requires trace' == s.trace + [r]
    ensures Ran(env.issuedTo, s, r.now, r.op, r.reply, s.(states := states', trace := trace'))
  {
    var n := |s.trace|;
    assert StepAt(env.issuedTo, states', trace', n);
    assert states' == s.states + [states'[n + 1]];
  }

  lemma AuditIsShort(req: Request, reply: Reply)
    ensures |AuditFor(req, reply)| <= 1
  {
  }

  /** From a system that owes a request's event, if it owes one, the event is written. */
  lemma OwedIsWritten(env: Env, s: System, now: Time, owed: seq<AuditEvent>)
    requires |owed| <= 1
    ensures var owing, written := s.(pending := s.pending + multiset(owed)), s.(audit := s.audit + owed);
            && (owed == [] ==> owing == written)
            && (owed != [] ==> SystemStep(env, owing, Timed(now, WriteAudit(owed[0])), written))
  {
    if owed == [] {
      assert s.pending + multiset(owed) == s.pending && s.audit + owed == s.audit;
    } else {
      assert owed == [owed[0]];
      assert s.pending + multiset(owed) - multiset{owed[0]} == s.pending;
    }
  }

  /** `written` is `served`, or `served` once one audit event is written. */
  ghost predicate WritesTo(env: Env, now: Time, served: System, written: System) {
    served == written || exists event :: SystemStep(env, served, Timed(now, WriteAudit(event)), written)
  }

  lemma PerformedIsServeThenWrite(env: Env, s: System, now: Time, allow: bool, req: Request, reply: Reply,
                                  states': seq<Option<SessionSlot>>, trace': seq<Record>)
    returns (served: System)
    requires |s.states| == |s.trace| + 1 && s.states <= states' && IsRun(env.issuedTo, states', trace')
    requires PlanFor(env.judge, allow, now, req).Perform?
    requires trace' == s.trace + [Record(now, PlanFor(env.judge, allow, now, req).op, reply)]
    ensures ServeStep(env, s, now, req, allow, reply, served)
    ensures WritesTo(env, now, served, s.(states := states', trace := trace', audit := s.audit + AuditFor(req, reply)))
  {
    var performed, owed := s.(states := states', trace := trace'), AuditFor(req, reply);
    served := performed.(pending := s.pending + multiset(owed));
    LastStepRan(env, s, states', trace', Record(now, PlanFor(env.judge, allow, now, req).op, reply));
    AuditIsShort(req, reply);
    OwedIsWritten(env, performed, now, owed);
  }

  lemma ServedResponds(judge: UrlJudge, allow: bool, now: Time, req: Request, trace: seq<Record>,
                       audit: seq<AuditEvent>, trace': seq<Record>, audit': seq<AuditEvent>, response: Response)
    returns (reply: Reply)
    requires Served(judge, allow, now, req, trace, audit, trace', audit', response)
    ensures Responds(judge, now, req, allow, reply, response)
    ensures var plan := PlanFor(judge, allow, now, req);
            plan.Perform? ==> trace' == trace + [Record(now, plan.op, reply)] && audit' == audit + AuditFor(req, reply)
  {
    reply := if PlanFor(judge, allow, now, req).Perform? then trace'[|trace|].reply else Done;
  }

  lemma AnsweredIsServe(env: Env, s: System, now: Time, allow: bool, req: Request, reply: Reply,
                        states': seq<Option<SessionSlot>>, trace': seq<Record>)
    returns (served: System)
    requires |s.states| == |s.trace| + 1 && s.states <= states' && IsRun(env.issuedTo, states', trace')
    requires !PlanFor(env.judge, allow, now, req).Perform?
    requires trace' == s.trace + if PlanFor(env.judge, allow, now, req).ClearAndRefuse?
                                 then [Record(now, ClearSession, Done)] else []
    ensures ServeStep(env, s, now, req, allow, reply, served)
    ensures served == s.(states := states', trace := trace')
  {
    served := s.(states := states', trace := trace');
    if PlanFor(env.judge, allow, now, req).ClearAndRefuse? {
      LastStepRan(env, s, states', trace', Record(now, ClearSession, Done));
    } else {
      assert states' == s.states;
    }
  }

  lemma ServeIsStep(env: Env, s: System, now: Time, allow: bool, req: Request, reply: Reply, response: Response,
                    s': System)
    requires ServeStep(env, s, now, req, allow, reply, s') && Responds(env.judge, now, req, allow, reply, response)
    ensures SystemStep(env, s, Timed(now, Serve(req, allow, reply, response)), s')
  {
  }

  lemma ServedByAnswer(judge: UrlJudge, allow: bool, now: Time, req: Request, trace: seq<Record>,
                       audit: seq<AuditEvent>, trace': seq<Record>, audit': seq<AuditEvent>, response: Response)
    requires Served(judge, allow, now, req, trace, audit, trace', audit', response)
    requires !PlanFor(judge, allow, now, req).Perform?
    ensures audit' == audit
    ensures trace' == trace + if PlanFor(judge, allow, now, req).ClearAndRefuse?
                              then [Record(now, ClearSession, Done)] else []
  {
  }

  /**
   A request handled in one go is a `Serve` step and then the `WriteAudit` step it owes, so the class and the
   interleaved system tell the same story.
   */
  lemma RequestIsServeThenWrite(env: Env, s: System, now: Time, allow: bool, req: Request,
                                states': seq<Option<SessionSlot>>, trace': seq<Record>, audit': seq<AuditEvent>,
                                response: Response)
    returns (reply: Reply, served: System)
    requires |s.states| == |s.trace| + 1 && s.states <= states' && IsRun(env.issuedTo, states', trace')
    requires Served(env.judge, allow, now, req, s.trace, s.audit, trace', audit', response)
    ensures SystemStep(env, s, Timed(now, Serve(req, allow, reply, response)), served)
    ensures WritesTo(env, now, served, s.(states := states', trace := trace', audit := audit'))
  {
    reply := ServedResponds(env.judge, allow, now, req, s.trace, s.audit, trace', audit', response);
    if PlanFor(env.judge, allow, now, req).Perform? {
      served := PerformedIsServeThenWrite(env, s, now, allow, req, reply, states', trace');
    } else {
      ServedByAnswer(env.judge, allow, now, req, s.trace, s.audit, trace', audit', response);
      served := AnsweredIsServe(env, s, now, allow, req, reply, states', trace');
      assert served == s.(states := states', trace := trace', audit := audit');
    }
    ServeIsStep(env, s, now, allow, req, reply, response, served);
  }

  // ---------------------------------------------------------------------
  // A restore never overwrites a live session
  // ---------------------------------------------------------------------

  /** A conditional store that finds a live session changes neither the slot nor the audit log. */
  lemma RestoreKeepsLiveSession(env: Env, s: System, t: Timed, s': System)
    requires SystemStep(env, s, t, s') && s.states != []
    requires t.event.RestoreStores? && IsLive(s.Slot(), t.now)
    ensures s'.Slot() == s.Slot()
    ensures s'.audit == s.audit && s'.pending == s.pending
  {
  }

  /** The events that end a session before its time: a logout, or a login that is stored or refused as insecure. */
  predicate EndsSession(judge: UrlJudge, t: Timed) {
    && t.event.Serve?
    && var plan := PlanFor(judge, t.event.allowInsecure, t.now, t.event.req);
       plan.ClearAndRefuse? || (plan.Perform? && (plan.op.StoreSession? || plan.op.ClearSession?))
  }

  predicate HoldsSession(s: System, session: Session, serverUrl: Option<string>) {
    s.Slot().Some? && s.Slot().value.session == session && s.Slot().value.serverUrl == serverUrl
  }

  lemma OnlyEndingEventsStoreOrClear(judge: UrlJudge, s: System, t: Timed)
    requires OpOf(judge, s, t).Some? && (OpOf(judge, s, t).value.StoreSession? || OpOf(judge, s, t).value.ClearSession?)
    ensures EndsSession(judge, t)
  {
  }

  lemma LiveSessionSurvivesStep(env: Env, s: System, t: Timed, s': System)
    requires SystemStep(env, s, t, s') && s.states != []
    requires IsLive(s.Slot(), t.now) && !EndsSession(env.judge, t)
    ensures HoldsSession(s', s.Slot().value.session, s.Slot().value.serverUrl)
  {
    var reply := StepRuns(env, s, t, s');
    if OpOf(env.judge, s, t).Some? {
      var op := OpOf(env.judge, s, t).value;
      if op.StoreSession? || op.ClearSession? {
        OnlyEndingEventsStoreOrClear(env.judge, s, t);
      }
      StepKeepsSlot(env.issuedTo, s.Slot(), Record(t.now, op, reply), s'.Slot());
    }
  }

  lemma LoginInstalls(env: Env, s: System, t: Timed, s': System)
    requires SystemStep(env, s, t, s')
    requires OpOf(env.judge, s, t).Some? && OpOf(env.judge, s, t).value.StoreSession?
    ensures HoldsSession(s', OpOf(env.judge, s, t).value.session, OpOf(env.judge, s, t).value.serverUrl)
  {
    var reply := StepRuns(env, s, t, s');
  }

  /** A session held after `i` events is held after `n`, whatever restores and other requests interleave. */
  lemma {:induction false} HeldSessionSurvives(env: Env, systems: seq<System>, events: seq<Timed>, i: nat, n: nat,
                                               session: Session, serverUrl: Option<string>)
    requires IsSystemRun(env, systems, events) && i <= n <= |events|
    requires HoldsSession(systems[i], session, serverUrl)
    requires i < n ==> !session.IsExpired(events[n - 1].now)
    requires forall m :: i <= m < n ==> !EndsSession(env.judge, events[m])
    ensures HoldsSession(systems[n], session, serverUrl)
  {
    if i < n {
      if n - 1 > i {
        assert events[n - 2].now <= events[n - 1].now;
      }
      HeldSessionSurvives(env, systems, events, i, n - 1, session, serverUrl);
      assert SystemStepAt(env, systems, events, n - 1);
      InterleavingIsAgentRun(env, systems, events, n - 1);
      LiveSessionSurvivesStep(env, systems[n - 1], events[n - 1], systems[n]);
    }
  }

  /**
   A login's session stays in the slot, whatever restores and other requests interleave,
   until it expires or one of the events in `EndsSession` comes.
   */
  lemma LoginSurvives(env: Env, systems: seq<System>, events: seq<Timed>, i: nat, n: nat, login: Op)
    requires IsSystemRun(env, systems, events)
    requires i < n <= |events|
    requires login.StoreSession? && OpOf(env.judge, systems[i], events[i]) == Some(login)
    requires !login.session.IsExpired(events[n - 1].now)
    requires forall m :: i < m < n ==> !EndsSession(env.judge, events[m])
    ensures HoldsSession(systems[n], login.session, login.serverUrl)
  {
    assert SystemStepAt(env, systems, events, i);
    LoginInstalls(env, systems[i], events[i], systems[i + 1]);
    HeldSessionSurvives(env, systems, events, i + 1, n, login.session, login.serverUrl);
  }

  // ---------------------------------------------------------------------
  // What a restore offers
  // ---------------------------------------------------------------------

  /** The edits behind the configuration file after the first `n` events. A save that loaded earlier undoes others. */
  function FileEdits(events: seq<Timed>, n: nat): seq<Edit>
    requires n <= |events|
  {
    if n == 0 then []
    else if events[n - 1].event.ConfigSaves?
    then LoadedEdits(events, n - 1, events[n - 1].event.client) + [events[n - 1].event.edit]
    else FileEdits(events, n - 1)
  }

  /** The edits behind the copy that a command last loaded. */
  function LoadedEdits(events: seq<Timed>, n: nat, client: nat): seq<Edit>
    requires n <= |events|
  {
    if n == 0 then []
    else if events[n - 1].event == ConfigLoads(client) then FileEdits(events, n - 1)
    else LoadedEdits(events, n - 1, client)
  }

  /** A save makes the file of the copy it was built on and its own edit. */
  lemma SaveBuilds(env: Env, start: Config.Servers, events: seq<Timed>, n: nat)
    requires 0 < n <= |events| && events[n - 1].event.ConfigSaves?
    ensures Built(env.hostOf, start, FileEdits(events, n))
            == Edited(env.hostOf, Built(env.hostOf, start, LoadedEdits(events, n - 1, events[n - 1].event.client)),
                      events[n - 1].event.edit)
  {
    var e := events[n - 1].event;
    var before := LoadedEdits(events, n - 1, e.client);
    assert FileEdits(events, n) == before + [e.edit];
    assert (before + [e.edit])[..|before|] == before;
  }

  /** Every copy a command has loaded and not yet saved is built by its edits. */
  ghost predicate CopiesAreBuilt(env: Env, start: Config.Servers, s: System, events: seq<Timed>, n: nat)
    requires n <= |events|
  {
    forall c :: c in s.loaded ==> s.loaded[c] == Built(env.hostOf, start, LoadedEdits(events, n, c))
  }

  lemma BuiltStep(env: Env, start: Config.Servers, s: System, events: seq<Timed>, n: nat, s': System)
    requires 0 < n <= |events| && SystemStep(env, s, events[n - 1], s')
    requires s.config == Built(env.hostOf, start, FileEdits(events, n - 1))
    requires CopiesAreBuilt(env, start, s, events, n - 1)
    ensures s'.config == Built(env.hostOf, start, FileEdits(events, n))
    ensures CopiesAreBuilt(env, start, s', events, n)
  {
    var e := events[n - 1].event;
    if e.ConfigSaves? {
      SaveBuilds(env, start, events, n);
    } else {
      assert FileEdits(events, n) == FileEdits(events, n - 1);
      assert s'.config == s.config;
    }
    forall c | c in s'.loaded ensures s'.loaded[c] == Built(env.hostOf, start, LoadedEdits(events, n, c)) {
      if e != ConfigLoads(c) {
        assert LoadedEdits(events, n, c) == LoadedEdits(events, n - 1, c);
        assert c in s.loaded && s'.loaded[c] == s.loaded[c];
      }
    }
  }

  lemma {:induction false} FileIsBuilt(env: Env, systems: seq<System>, events: seq<Timed>, n: nat)
    requires IsSystemRun(env, systems, events) && n <= |events|
    ensures systems[n].config == Built(env.hostOf, systems[0].config, FileEdits(events, n))
    ensures CopiesAreBuilt(env, systems[0].config, systems[n], events, n)
  {
    if n > 0 {
      FileIsBuilt(env, systems, events, n - 1);
      assert SystemStepAt(env, systems, events, n - 1);
      BuiltStep(env, systems[0].config, systems[n - 1], events, n, systems[n]);
    }
  }

  /** Event `j` before `n` saved this edit. */
  ghost predicate SavedBefore(events: seq<Timed>, n: nat, edit: Edit) {
    exists j :: 0 <= j < n <= |events| && events[j].event.ConfigSaves? && events[j].event.edit == edit
  }

  lemma SavedBeforeLasts(events: seq<Timed>, m: nat, n: nat, edit: Edit)
    requires m <= n <= |events| && SavedBefore(events, m, edit)
    ensures SavedBefore(events, n, edit)
  {
    var j :| 0 <= j < m && events[j].event.ConfigSaves? && events[j].event.edit == edit;
    assert 0 <= j < n;
  }

  lemma {:induction false} EditsWereSaved(events: seq<Timed>, n: nat)
    requires n <= |events|
    ensures forall e :: e in FileEdits(events, n) ==> SavedBefore(events, n, e)
    ensures forall c, e :: e in LoadedEdits(events, n, c) ==> SavedBefore(events, n, e)
  {
    if n > 0 {
      EditsWereSaved(events, n - 1);
      forall e | SavedBefore(events, n - 1, e) ensures SavedBefore(events, n, e) {
        SavedBeforeLasts(events, n - 1, n, e);
      }
      if events[n - 1].event.ConfigSaves? {
        assert SavedBefore(events, n, events[n - 1].event.edit);
      }
    }
  }

  lemma SavedUrlIsTrimmed(env: Env, systems: seq<System>, events: seq<Timed>, n: nat, edit: Edit)
    requires IsSystemRun(env, systems, events) && SavedBefore(events, n, edit) && !edit.Unrelated?
    ensures ServerUrl.TrimSlashes(edit.url) == edit.url
  {
    var j :| 0 <= j < n <= |events| && events[j].event.ConfigSaves? && events[j].event.edit == edit;
    assert SystemStepAt(env, systems, events, j);
  }

  lemma FileEditsAreTrimmed(env: Env, systems: seq<System>, events: seq<Timed>, n: nat)
    requires IsSystemRun(env, systems, events) && n <= |events|
    ensures Trimmed(FileEdits(events, n))
  {
    EditsWereSaved(events, n);
    forall e | e in FileEdits(events, n) && !e.Unrelated? ensures ServerUrl.TrimSlashes(e.url) == e.url {
      SavedUrlIsTrimmed(env, systems, events, n, e);
    }
  }

  /** A restore carries what the file's current entry held when it was loaded. */
  lemma {:induction false} RestoreWasLoaded(env: Env, systems: seq<System>, events: seq<Timed>, n: nat, client: nat)
    returns (m: nat)
    requires IsSystemRun(env, systems, events) && n <= |events| && client in systems[n].restores
    ensures m < n && events[m].event == RestoreLoads(client)
    ensures var entry, r := systems[m].config.Current(), systems[n].restores[client];
            && entry.Some? && entry.value.token == Some(r.token)
            && ServerUrl.TrimSlashes(entry.value.serverUrl) == r.serverUrl
  {
    assert SystemStepAt(env, systems, events, n - 1);
    if events[n - 1].event == RestoreLoads(client) {
      m := n - 1;
    } else {
      assert client in systems[n - 1].restores;
      m := RestoreWasLoaded(env, systems, events, n - 1, client);
    }
  }

  /**
   A restore, however stale, offers the token of one login, or one that was in the file from the start, and offers it
   with the URL it came with exactly when the last URL saved on that entry since, if there is one, is that URL.
   */
  lemma RestoreOffersLoginPairIff(env: Env, systems: seq<System>, events: seq<Timed>, n: nat, client: nat)
    returns (m: nat, h: string, origin: Option<nat>)
    requires IsSystemRun(env, systems, events) && n <= |events| && client in systems[n].restores
    ensures m < n && events[m].event == RestoreLoads(client)
    ensures var start, edits, r := systems[0].config, FileEdits(events, m), systems[n].restores[client];
            && IsOrigin(env.hostOf, start, edits, h, r.token, origin)
            && (origin.Some? ==> SavedBefore(events, n, edits[origin.value]))
            && (r.serverUrl == OriginUrl(start, edits, h, origin) <==> UrlStands(env.hostOf, start, edits, h, origin))
  {
    m := RestoreWasLoaded(env, systems, events, n, client);
    var start, edits := systems[0].config, FileEdits(events, m);
    h := systems[m].config.current.value;
    FileIsBuilt(env, systems, events, m);
    origin := EntryToken(env.hostOf, start, edits, h);
    FileEditsAreTrimmed(env, systems, events, m);
    PairStandsIff(env.hostOf, start, edits, h, systems[n].restores[client].token, origin);
    if origin.Some? {
      EditsWereSaved(events, m);
      SavedBeforeLasts(events, m, n, edits[origin.value]);
    }
  }

  /** Some login before `n` saved this token with this URL, or the file had them together from the start. */
  ghost predicate Paired(start: Config.Servers, events: seq<Timed>, n: nat, token: string, url: string) {
    || SavedBefore(events, n, Login(token, url))
    || exists h :: h in start.entries && start.entries[h].token == Some(token)
                   && ServerUrl.TrimSlashes(start.entries[h].serverUrl) == url
  }

  /** No token of the run comes with two URLs. */
  ghost predicate TokensTellLogins(start: Config.Servers, events: seq<Timed>) {
    forall token, a, b ::
      Paired(start, events, |events|, token, a) && Paired(start, events, |events|, token, b) ==> a == b
  }

  lemma PairedLasts(start: Config.Servers, events: seq<Timed>, n: nat, token: string, url: string)
    requires n <= |events| && Paired(start, events, n, token, url)
    ensures Paired(start, events, |events|, token, url)
  {
    if SavedBefore(events, n, Login(token, url)) {
      SavedBeforeLasts(events, n, |events|, Login(token, url));
    }
  }

  /** When each token is one login's, a restore offers a pair that belongs together exactly when the URL stands. */
  lemma RestoreOffersSavedPairIff(env: Env, systems: seq<System>, events: seq<Timed>, n: nat, client: nat)
    returns (m: nat, h: string, origin: Option<nat>)
    requires IsSystemRun(env, systems, events) && n <= |events| && client in systems[n].restores
    requires TokensTellLogins(systems[0].config, events)
    ensures m < n && events[m].event == RestoreLoads(client)
    ensures var start, edits, r := systems[0].config, FileEdits(events, m), systems[n].restores[client];
            && IsOrigin(env.hostOf, start, edits, h, r.token, origin)
            && (Paired(start, events, n, r.token, r.serverUrl) <==> UrlStands(env.hostOf, start, edits, h, origin))
  {
    m, h, origin := RestoreOffersLoginPairIff(env, systems, events, n, client);
    var start, edits, r := systems[0].config, FileEdits(events, m), systems[n].restores[client];
    var own := OriginUrl(start, edits, h, origin);
    assert Paired(start, events, n, r.token, own);
    PairedLasts(start, events, n, r.token, own);
    if Paired(start, events, n, r.token, r.serverUrl) {
      PairedLasts(start, events, n, r.token, r.serverUrl);
    }
  }

  /** A login to one path of a host, then another that gets no further than registering its client, then a restore. */
  const ABANDONED := [
    Timed(0, ConfigLoads(1)), Timed(0, ConfigSaves(1, Login("T", FIRST_URL))),
    Timed(0, ConfigLoads(2)), Timed(0, ConfigSaves(2, UrlOnly(SECOND_URL))),
    Timed(0, RestoreLoads(3))]

  const FIRST_URL := "https://h/a"
  const SECOND_URL := "https://h/b"
  const FIRST_ENTRY := Config.NEW_SERVER.(serverUrl := FIRST_URL, token := Some("T"))

  const AFTER_LOGIN := Config.Servers(Some("h"), map["h" := FIRST_ENTRY])
  const AFTER_URL := Config.Servers(Some("h"), map["h" := FIRST_ENTRY.(serverUrl := SECOND_URL)])

  const ABANDONED_STATES := [
    START,
    START.(loaded := map[1 := NO_SERVERS]),
    START.(config := AFTER_LOGIN),
    START.(config := AFTER_LOGIN, loaded := map[2 := AFTER_LOGIN]),
    START.(config := AFTER_URL),
    START.(config := AFTER_URL, restores := map[3 := Loaded("T", SECOND_URL)])]

  lemma AbandonedSaves(hostOf: Config.HostOf)
    requires hostOf(FIRST_URL) == Some("h") && hostOf(SECOND_URL) == Some("h")
    ensures Edited(hostOf, NO_SERVERS, Login("T", FIRST_URL)) == AFTER_LOGIN
    ensures Edited(hostOf, AFTER_LOGIN, UrlOnly(SECOND_URL)) == AFTER_URL
  {
  }

  lemma AbandonedStep(env: Env, i: nat)
    requires env.hostOf(FIRST_URL) == Some("h") && env.hostOf(SECOND_URL) == Some("h") && i < 5
    ensures SystemStepAt(env, ABANDONED_STATES, ABANDONED, i)
  {
    AbandonedSaves(env.hostOf);
    assert ABANDONED_STATES[1].loaded - {1} == map[];
    assert ABANDONED_STATES[3].loaded - {2} == map[];
  }

  /** The restore offers the first login's token for the second one's URL, a pair that no login saved. */
  lemma AbandonedLoginMixesPair(env: Env)
    requires env.hostOf(FIRST_URL) == Some("h") && env.hostOf(SECOND_URL) == Some("h")
    ensures IsSystemRun(env, ABANDONED_STATES, ABANDONED)
    ensures ABANDONED_STATES[5].restores == map[3 := Loaded("T", SECOND_URL)]
    ensures !Paired(START.config, ABANDONED, 5, "T", SECOND_URL)
  {
    forall i | 0 <= i < 5 ensures SystemStepAt(env, ABANDONED_STATES, ABANDONED, i) {
      AbandonedStep(env, i);
    }
    assert FIRST_URL[|FIRST_URL| - 1] != SECOND_URL[|SECOND_URL| - 1];
  }

  // ---------------------------------------------------------------------
  // The audit log matches what was accepted
  // ---------------------------------------------------------------------

  /** Record `r`, performed for request `req`, is the very act that audit event `a` announces. */
  predicate Enacts(req: Option<Request>, r: Record, a: AuditEvent) {
    match a
    case SessionStored(email) =>
      && (r.op.StoreSession? || r.op.StoreIfNoLiveSession?)
      && r.op.session.userEmail == email && r.reply == Stored(true)
    case CredentialCached(key) => AcceptedInsert(r, key)
    case SshCertProvisioned(key, cert) =>
      AcceptedSsh(r) && req.Some? && req.value.ReqStoreSsh? && req.value.keyPath == key && req.value.certPath == cert
    case SessionCleared => req == Some(ReqClearSession)
    case CredentialCacheCleared => req == Some(ReqClearCache)
  }

  predicate Accepted(s: System, t: Timed, s': System, a: AuditEvent) {
    && |s.trace| < |s'.trace|
    && Enacts(if t.event.Serve? then Some(t.event.req) else None, s'.trace[|s'.trace| - 1], a)
  }

  function CountAccepted(systems: seq<System>, events: seq<Timed>, n: nat, a: AuditEvent): nat
    requires |systems| == |events| + 1 && n <= |events|
  {
    if n == 0 then 0
    else CountAccepted(systems, events, n - 1, a)
         + if Accepted(systems[n - 1], events[n - 1], systems[n], a) then 1 else 0
  }

  /** How often an event is written or waiting to be written. */
  function Announced(s: System, a: AuditEvent): nat {
    multiset(s.audit)[a] + s.pending[a]
  }

  /** The event a performed request owes is the one its record enacts. */
  lemma RequestOwesWhatItEnacts(env: Env, slot: Option<SessionSlot>, now: Time, req: Request,
                                allow: bool, reply: Reply, slot': Option<SessionSlot>, a: AuditEvent)
    requires PlanFor(env.judge, allow, now, req).Perform?
    requires Step(env.issuedTo, slot, now, PlanFor(env.judge, allow, now, req).op, reply, slot')
    ensures a in AuditFor(req, reply)
            <==> Enacts(Some(req), Record(now, PlanFor(env.judge, allow, now, req).op, reply), a)
    ensures |AuditFor(req, reply)| <= 1
  {
  }

  lemma SmallSequenceCount(events: seq<AuditEvent>, a: AuditEvent)
    requires |events| <= 1
    ensures multiset(events)[a] == if a in events then 1 else 0
  {
    if |events| == 1 {
      assert events == [events[0]];
    }
  }

  lemma ServeAnnouncesOnce(env: Env, s: System, now: Time, req: Request, allow: bool,
                           reply: Reply, s': System, a: AuditEvent)
    requires ServeStep(env, s, now, req, allow, reply, s')
    ensures Announced(s', a) == Announced(s, a)
              + if |s.trace| < |s'.trace| && PlanFor(env.judge, allow, now, req).Perform?
                   && Enacts(Some(req), s'.trace[|s'.trace| - 1], a) then 1 else 0
  {
    if PlanFor(env.judge, allow, now, req).Perform? {
      RequestOwesWhatItEnacts(env, s.Slot(), now, req, allow, reply, s'.Slot(), a);
      SmallSequenceCount(AuditFor(req, reply), a);
    }
  }

  /** A restore's request owes the same events whether or not it is named. */
  lemma RestoreAnnouncesOnce(env: Env, s: System, t: Timed, s': System, a: AuditEvent)
    requires SystemStep(env, s, t, s') && t.event.RestoreStores?
    ensures Announced(s', a) == Announced(s, a) + if Accepted(s, t, s', a) then 1 else 0
  {
    var req := RestoreRequest(s.restores[t.event.client]);
    var idle := s.(restores := s.restores - {t.event.client});
    ServeAnnouncesOnce(env, idle, t.now, req, t.event.allowInsecure, t.event.reply, s', a);
  }

  /** Writing an event moves it from `pending` to the log; a lazily loaded certificate announces nothing. */
  lemma QuietStepAnnouncesNothing(env: Env, s: System, t: Timed, s': System, a: AuditEvent)
    requires SystemStep(env, s, t, s') && !t.event.Serve? && !t.event.RestoreStores?
    ensures Announced(s', a) == Announced(s, a) && !Accepted(s, t, s', a)
  {
  }

  lemma StepAnnouncesOnce(env: Env, s: System, t: Timed, s': System, a: AuditEvent)
    requires SystemStep(env, s, t, s')
    ensures Announced(s', a) == Announced(s, a) + if Accepted(s, t, s', a) then 1 else 0
  {
    match t.event
    case Serve(req, allow, reply, _) => ServeAnnouncesOnce(env, s, t.now, req, allow, reply, s', a);
    case RestoreStores(_, _, _, _) => RestoreAnnouncesOnce(env, s, t, s', a);
    case _ => QuietStepAnnouncesNothing(env, s, t, s', a);
  }

  /** Over any interleaving each accepted act is announced exactly once, and a refusal never. */
  lemma {:induction false} AuditMatchesAccepted(
    env: Env, systems: seq<System>, events: seq<Timed>, n: nat, a: AuditEvent)
    requires IsSystemRun(env, systems, events) && n <= |events|
    ensures Announced(systems[n], a) == CountAccepted(systems, events, n, a)
    ensures systems[n].pending == multiset{} ==>
              multiset(systems[n].audit)[a] == CountAccepted(systems, events, n, a)
  {
    if n > 0 {
      AuditMatchesAccepted(env, systems, events, n - 1, a);
      assert SystemStepAt(env, systems, events, n - 1);
      StepAnnouncesOnce(env, systems[n - 1], events[n - 1], systems[n], a);
    }
  }

  // ---------------------------------------------------------------------
  // The slot's server URL is secure or was opted into
  // ---------------------------------------------------------------------

  predicate OptedIn(t: Timed) {
    (t.event.Serve? || t.event.RestoreStores?) && t.event.allowInsecure
  }

  predicate Vouched(judge: UrlJudge, t: Timed, url: string) {
    judge(url) == Secure || (judge(url) == InsecureHttp && OptedIn(t))
  }

  /** Event `j` stored the session and URL held ever since, up to `n`. */
  ghost predicate InstalledBy(judge: UrlJudge, systems: seq<System>, events: seq<Timed>, n: nat, j: nat,
                              session: Session, url: string)
    requires n < |systems| == |events| + 1
  {
    && j < n
    && OpOf(judge, systems[j], events[j]).Some?
    && (var op := OpOf(judge, systems[j], events[j]).value;
        (op.StoreSession? || op.StoreIfNoLiveSession?) && op.session == session && op.serverUrl == Some(url))
    && forall m :: j < m <= n ==> HoldsSession(systems[m], session, Some(url))
  }

  lemma InstalledByLasts(judge: UrlJudge, systems: seq<System>, events: seq<Timed>, n: nat, j: nat, session: Session,
                         url: string)
    requires n + 1 < |systems| == |events| + 1 && InstalledBy(judge, systems, events, n, j, session, url)
    requires HoldsSession(systems[n + 1], session, Some(url))
    ensures InstalledBy(judge, systems, events, n + 1, j, session, url)
  {
  }

  lemma StoredUrlIsVouched(judge: UrlJudge, s: System, t: Timed)
    requires OpOf(judge, s, t).Some?
    ensures var op := OpOf(judge, s, t).value;
            (op.StoreSession? || op.StoreIfNoLiveSession?) && op.serverUrl.Some? ==>
              Vouched(judge, t, op.serverUrl.value)
  {
  }

  /** A step that leaves a URL in the slot either found it there or stored it. */
  lemma UrlIsKeptOrStored(issuedTo: Issuer, slot: Option<SessionSlot>, r: Record, slot': Option<SessionSlot>)
    requires Step(issuedTo, slot, r.now, r.op, r.reply, slot') && slot'.Some?
    ensures || (&& slot.Some?
                && slot.value.session == slot'.value.session && slot.value.serverUrl == slot'.value.serverUrl)
            || (&& (r.op.StoreSession? || r.op.StoreIfNoLiveSession?)
                && r.op.session == slot'.value.session && r.op.serverUrl == slot'.value.serverUrl)
  {
  }

  lemma StepKeepsOrStoresUrl(env: Env, s: System, t: Timed, s': System, session: Session,
                             url: string)
    requires SystemStep(env, s, t, s') && s.states != []
    requires HoldsSession(s', session, Some(url))
    ensures || HoldsSession(s, session, Some(url))
            || (&& OpOf(env.judge, s, t).Some?
                && (var op := OpOf(env.judge, s, t).value;
                    && (op.StoreSession? || op.StoreIfNoLiveSession?)
                    && op.session == session && op.serverUrl == Some(url))
                && Vouched(env.judge, t, url))
  {
    var reply := StepRuns(env, s, t, s');
    if OpOf(env.judge, s, t).Some? {
      UrlIsKeptOrStored(env.issuedTo, s.Slot(), Record(t.now, OpOf(env.judge, s, t).value, reply), s'.Slot());
      StoredUrlIsVouched(env.judge, s, t);
    }
  }

  /** In every reachable state the slot's server URL is absent, secure, or accepted while the opt-in was on. */
  lemma {:induction false} ServerUrlIsVouchedFor(
    env: Env, systems: seq<System>, events: seq<Timed>, n: nat, session: Session, url: string)
    requires IsSystemRun(env, systems, events) && n <= |events|
    requires HoldsSession(systems[n], session, Some(url))
    ensures exists j: nat ::
              InstalledBy(env.judge, systems, events, n, j, session, url) && Vouched(env.judge, events[j], url)
  {
    assert n > 0;
    assert systems[n - 1].states != [] by { InterleavingIsAgentRun(env, systems, events, n - 1); }
    assert SystemStepAt(env, systems, events, n - 1);
    StepKeepsOrStoresUrl(env, systems[n - 1], events[n - 1], systems[n], session, url);
    if HoldsSession(systems[n - 1], session, Some(url)) {
      ServerUrlIsVouchedFor(env, systems, events, n - 1, session, url);
      var j: nat :|
        InstalledBy(env.judge, systems, events, n - 1, j, session, url) && Vouched(env.judge, events[j], url);
      InstalledByLasts(env.judge, systems, events, n - 1, j, session, url);
    } else {
      assert InstalledBy(env.judge, systems, events, n, n - 1, session, url);
    }
  }
}
