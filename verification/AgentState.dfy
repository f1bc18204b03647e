/**
 The agent's one session slot, guarded by a single lock.

 Every lock-held method of the agent is one atomic step. The clock is an input
 to the step and never runs backwards. A run is the sequence of steps taken since the
 agent started; the `Agent` class performs steps in place and records the run as
 ghost state, so everything proved here about runs holds of every sequence of calls.

 The reference is `ApplyUnbounded`: the same agent with a cache that never evicts.
 */
module AgentState {
  import opened Options

  /** Nanoseconds since the epoch. */
  type Time = int

  /** Whether a certificate key ID names this user and this server. */
  type Issuer = (string, string, Option<string>) -> bool

  const MAX_CACHE_ENTRIES: nat := 128
  const MAX_CREDENTIAL_TYPE_LEN: nat := 256
  const NANOS_PER_SECOND: nat := 1_000_000_000

  datatype Session = Session(token: string, userEmail: string, expiresAt: Time, authenticatedAt: Time) {
    predicate IsExpired(now: Time) {
      now >= expiresAt
    }

    /** Whole seconds left, rounded down; zero once expired. */
    function ExpiresInSeconds(now: Time): (secs: nat)
      ensures expiresAt <= now ==> secs == 0
      ensures now < expiresAt ==> secs * 1_000_000_000 <= expiresAt - now < (secs + 1) * 1_000_000_000
    {
      if now >= expiresAt then 0 else (expiresAt - now) / NANOS_PER_SECOND
    }
  }

  datatype CachedCredential = CachedCredential(data: string, expiresAt: Time, cachedAt: Time) {
    predicate IsValid(now: Time) {
      now < expiresAt
    }
  }

  datatype SshCredentials = SshCredentials(keyId: string, expiresAt: Time, material: string) {
    /** A certificate is still served at the instant it expires. */
    predicate IsExpired(now: Time) {
      expiresAt < now
    }
  }

  type Cache = map<string, CachedCredential>

  datatype SessionSlot = SessionSlot(
    session: Session,
    serverUrl: Option<string>,
    cache: Cache,
    ssh: Option<SshCredentials>)

  datatype Op =
    | StoreSession(session: Session, serverUrl: Option<string>)
    | StoreIfNoLiveSession(session: Session, serverUrl: Option<string>)
    | ClearSession
    | StoreSsh(creds: SshCredentials)
    | ClearSsh
    | CacheCredential(key: string, cred: CachedCredential)
    | ClearCache
    | GetSession
    | GetToken
    | GetSsh
    | HasSsh
    | GetCached(key: string)

  datatype SshRefusal = NoSshSession | NotIssuedToSession

  datatype CacheRefusal = KeyTooLong | NoSession

  datatype Reply =
    | Done
    | Stored(stored: bool)
    | SshRefused(ssh: SshRefusal)
    | CacheRefused(cache: CacheRefusal)
    | SessionIs(current: Option<(Session, Option<string>)>)
    | TokenIs(token: Option<string>)
    | SshIs(served: Option<SshCredentials>)
    | SshHeld(held: bool)
    | CachedIs(answer: Option<CachedCredential>)

  /** Length in bytes of the UTF-8 form of a key. */
  function Utf8Len(s: string): nat {
    if s == [] then 0 else
      var c := s[0] as int;
      (if c < 0x80 then 1 else if c < 0x800 then 2 else if c < 0x1_0000 then 3 else 4) + Utf8Len(s[1..])
  }

  /** Each character takes one to four bytes by its code point, and a string takes the sum. */
  lemma {:induction false} Utf8LenIsSum(s: string, c: char)
    ensures Utf8Len(s + [c]) == Utf8Len(s) +
            var code := c as int;
            if code <= 0x7F then 1 else if code <= 0x7FF then 2 else if code <= 0xFFFF then 3 else 4
  {
    if s == [] {
      assert [] + [c] == [c] && [c][1..] == [];
    } else {
      assert (s + [c])[1..] == s[1..] + [c];
      Utf8LenIsSum(s[1..], c);
    }
  }

  /** The limit is in bytes: only for an ASCII key is that the number of characters. */
  lemma {:induction false} Utf8LenBounds(s: string)
    ensures |s| <= Utf8Len(s) <= 4 * |s|
    ensures Utf8Len(s) == |s| <==> forall i :: 0 <= i < |s| ==> s[i] as int < 0x80
  {
    if s != [] {
      Utf8LenBounds(s[1..]);
      assert forall i :: 0 < i < |s| ==> s[i] == s[1..][i - 1];
      assert forall i :: 0 <= i < |s[1..]| ==> s[1..][i] == s[i + 1];
    }
  }

  predicate IsLive(slot: Option<SessionSlot>, now: Time) {
    slot.Some? && !slot.value.session.IsExpired(now)
  }

  function FreshSlot(session: Session, serverUrl: Option<string>): SessionSlot {
    SessionSlot(session, serverUrl, map[], None)
  }

  /** The cached credential served for `key`. */
  function Answer(slot: Option<SessionSlot>, now: Time, key: string): Option<CachedCredential> {
    if IsLive(slot, now) && key in slot.value.cache && slot.value.cache[key].IsValid(now)
    then Some(slot.value.cache[key])
    else None
  }

  function SshAnswer(slot: Option<SessionSlot>, now: Time): Option<SshCredentials> {
    if IsLive(slot, now) && slot.value.ssh.Some? && !slot.value.ssh.value.IsExpired(now)
    then slot.value.ssh
    else None
  }

  predicate AcceptsInsert(slot: Option<SessionSlot>, now: Time, key: string) {
    Utf8Len(key) <= MAX_CREDENTIAL_TYPE_LEN && IsLive(slot, now)
  }

  /** One step of the reference agent, whose cache is unbounded. */
  function ApplyUnbounded(issuedTo: Issuer, slot: Option<SessionSlot>, now: Time, op: Op)
    : (Option<SessionSlot>, Reply)
  {
    match op
    case StoreSession(session, url) => (Some(FreshSlot(session, url)), Stored(true))
    case StoreIfNoLiveSession(session, url) =>
      if IsLive(slot, now) then (slot, Stored(false)) else (Some(FreshSlot(session, url)), Stored(true))
    case ClearSession => (None, Done)
    case StoreSsh(creds) =>
      if !IsLive(slot, now) then (slot, SshRefused(NoSshSession))
      else if !issuedTo(creds.keyId, slot.value.session.userEmail, slot.value.serverUrl) then
        (slot, SshRefused(NotIssuedToSession))
      else (Some(slot.value.(ssh := Some(creds))), Done)
    case ClearSsh => (if slot.Some? then Some(slot.value.(ssh := None)) else None, Done)
    case CacheCredential(key, cred) =>
      if Utf8Len(key) > MAX_CREDENTIAL_TYPE_LEN then (slot, CacheRefused(KeyTooLong))
      else if !IsLive(slot, now) then (slot, CacheRefused(NoSession))
      else (Some(slot.value.(cache := slot.value.cache[key := cred])), Done)
    case ClearCache => (if slot.Some? then Some(slot.value.(cache := map[])) else None, Done)
    case GetSession =>
      (slot, SessionIs(if IsLive(slot, now) then Some((slot.value.session, slot.value.serverUrl)) else None))
    case GetToken => (slot, TokenIs(if IsLive(slot, now) then Some(slot.value.session.token) else None))
    case GetSsh => (slot, SshIs(SshAnswer(slot, now)))
    case HasSsh => (slot, SshHeld(slot.Some? && slot.value.ssh.Some?))
    case GetCached(key) => (slot, CachedIs(Answer(slot, now, key)))
  }

  predicate HasExpired(cache: Cache, now: Time) {
    exists k :: k in cache && !cache[k].IsValid(now)
  }

  predicate IsSoonest(cache: Cache, victim: string) {
    victim in cache && forall k :: k in cache ==> cache[victim].expiresAt <= cache[k].expiresAt
  }

  /** A full cache gives up any expired entry, or else one with the least expiry. */
  predicate IsVictim(cache: Cache, now: Time, victim: string) {
    && victim in cache
    && (if HasExpired(cache, now) then !cache[victim].IsValid(now) else IsSoonest(cache, victim))
  }

  /** What a bounded insert may do; which expired entry goes depends on hash order. */
  ghost predicate Inserted(cache: Cache, now: Time, key: string, cred: CachedCredential, cache': Cache) {
    if key in cache || |cache| < MAX_CACHE_ENTRIES then cache' == cache[key := cred]
    else exists victim :: IsVictim(cache, now, victim) && cache' == (cache - {victim})[key := cred]
  }

  /** One step of the agent. Only an accepted insert departs from the reference. */
  ghost predicate Step(issuedTo: Issuer, slot: Option<SessionSlot>, now: Time, op: Op, reply: Reply,
                       slot': Option<SessionSlot>)
  {
    if op.CacheCredential? && AcceptsInsert(slot, now, op.key) then
      && reply == Done
      && slot'.Some?
      && slot' == Some(slot.value.(cache := slot'.value.cache))
      && Inserted(slot.value.cache, now, op.key, op.cred, slot'.value.cache)
    else
      (slot', reply) == ApplyUnbounded(issuedTo, slot, now, op)
  }

  datatype Record = Record(now: Time, op: Op, reply: Reply)

  ghost predicate StepAt(issuedTo: Issuer, states: seq<Option<SessionSlot>>, trace: seq<Record>, i: nat)
    requires i < |trace| && |states| == |trace| + 1
  {
    Step(issuedTo, states[i], trace[i].now, trace[i].op, trace[i].reply, states[i + 1])
  }

  ghost predicate IsRun(issuedTo: Issuer, states: seq<Option<SessionSlot>>, trace: seq<Record>) {
    && |states| == |trace| + 1
    && states[0] == None
    && (forall i, j :: 0 <= i <= j < |trace| ==> trace[i].now <= trace[j].now)
    && (forall i :: 0 <= i < |trace| ==> StepAt(issuedTo, states, trace, i))
  }

  lemma RunExtends(issuedTo: Issuer, states: seq<Option<SessionSlot>>, trace: seq<Record>, r: Record,
                   slot': Option<SessionSlot>)
    requires IsRun(issuedTo, states, trace) && Step(issuedTo, states[|trace|], r.now, r.op, r.reply, slot')
    requires trace != [] ==> trace[|trace| - 1].now <= r.now
    ensures IsRun(issuedTo, states + [slot'], trace + [r])
  {
    var states', trace' := states + [slot'], trace + [r];
    forall i | 0 <= i < |trace'| ensures StepAt(issuedTo, states', trace', i) {
      assert i < |trace| ==> StepAt(issuedTo, states, trace, i);
    }
  }

  /** The reference agent after the first `n` operations of the trace; replies are ignored. */
  ghost function Ideal(issuedTo: Issuer, trace: seq<Record>, n: nat): Option<SessionSlot>
    requires n <= |trace|
  {
    if n == 0 then None
    else ApplyUnbounded(issuedTo, Ideal(issuedTo, trace, n - 1), trace[n - 1].now, trace[n - 1].op).0
  }

  // ---------------------------------------------------------------------
  // The bounded cache and the ideal map
  // ---------------------------------------------------------------------

  /** The agent's slot is the reference's slot with some cached entries missing. */
  ghost predicate Shadows(slot: Option<SessionSlot>, ideal: Option<SessionSlot>) {
    && slot.Some? == ideal.Some?
    && (slot.Some? ==>
          && slot.value == ideal.value.(cache := slot.value.cache)
          && |slot.value.cache| <= MAX_CACHE_ENTRIES
          && slot.value.cache.Keys <= ideal.value.cache.Keys
          && forall k :: k in slot.value.cache ==> slot.value.cache[k] == ideal.value.cache[k])
  }

  /** An update adds at most its own key. */
  lemma UpdateSize(cache: Cache, key: string, cred: CachedCredential)
    ensures key in cache ==> |cache[key := cred]| == |cache|
    ensures key !in cache ==> |cache[key := cred]| == |cache| + 1
  {
    var cache' := cache[key := cred];
    assert cache'.Keys == cache.Keys + {key};
    if key in cache {
      assert cache'.Keys == cache.Keys;
    }
  }

  lemma RemovalSize(cache: Cache, victim: string)
    requires victim in cache
    ensures |cache - {victim}| == |cache| - 1
  {
    assert (cache - {victim}).Keys == cache.Keys - {victim};
  }

  lemma InsertedFits(cache: Cache, now: Time, key: string, cred: CachedCredential, cache': Cache)
    requires |cache| <= MAX_CACHE_ENTRIES
    requires Inserted(cache, now, key, cred, cache')
    ensures |cache'| <= MAX_CACHE_ENTRIES
    ensures key in cache' && cache'[key] == cred
    ensures forall k :: k in cache' && k != key ==> k in cache && cache'[k] == cache[k]
  {
    if key in cache || |cache| < MAX_CACHE_ENTRIES {
      UpdateSize(cache, key, cred);
    } else {
      var victim :| IsVictim(cache, now, victim) && cache' == (cache - {victim})[key := cred];
      RemovalSize(cache, victim);
      UpdateSize(cache - {victim}, key, cred);
    }
  }

  lemma StepShadows(issuedTo: Issuer, slot: Option<SessionSlot>, ideal: Option<SessionSlot>, now: Time, op: Op,
                    reply: Reply, slot': Option<SessionSlot>)
    requires Shadows(slot, ideal)
    requires Step(issuedTo, slot, now, op, reply, slot')
    ensures Shadows(slot', ApplyUnbounded(issuedTo, ideal, now, op).0)
  {
    if op.CacheCredential? && AcceptsInsert(slot, now, op.key) {
      InsertedFits(slot.value.cache, now, op.key, op.cred, slot'.value.cache);
    }
  }

  /** In every reachable state the cache holds at most 128 entries and is a sub-map of the ideal one. */
  lemma {:induction false} CacheIsBoundedSubMap(
    issuedTo: Issuer, states: seq<Option<SessionSlot>>, trace: seq<Record>, n: nat)
    requires IsRun(issuedTo, states, trace)
    requires n <= |trace|
    ensures Shadows(states[n], Ideal(issuedTo, trace, n))
  {
    if n > 0 {
      CacheIsBoundedSubMap(issuedTo, states, trace, n - 1);
      var r := trace[n - 1];
      assert StepAt(issuedTo, states, trace, n - 1);
      StepShadows(issuedTo, states[n - 1], Ideal(issuedTo, trace, n - 1), r.now, r.op, r.reply, states[n]);
    }
  }

  lemma CacheFits(issuedTo: Issuer, states: seq<Option<SessionSlot>>, trace: seq<Record>, n: nat)
    requires IsRun(issuedTo, states, trace)
    requires n <= |trace|
    ensures states[n].Some? ==> |states[n].value.cache| <= MAX_CACHE_ENTRIES
  {
    CacheIsBoundedSubMap(issuedTo, states, trace, n);
  }

  /** An accepted insert loses at most one entry: an expired one, or with none expired the soonest to expire. */
  lemma InsertEvictsAtMostOne(cache: Cache, now: Time, key: string, cred: CachedCredential, cache': Cache)
    requires |cache| <= MAX_CACHE_ENTRIES
    requires Inserted(cache, now, key, cred, cache')
    ensures |cache.Keys - cache'.Keys| <= 1
    ensures forall v :: v in cache && v !in cache' ==>
              && key !in cache && |cache| == 128
              && (|| cache[v].expiresAt <= now
                  || forall k :: k in cache ==> now < cache[k].expiresAt && cache[v].expiresAt <= cache[k].expiresAt)
    ensures key !in cache && |cache| == 128 ==> exists v :: v in cache && v !in cache'
    ensures key in cache' && cache'[key] == cred && cache'.Keys <= cache.Keys + {key}
    ensures forall k :: k in cache && k in cache' && k != key ==> cache'[k] == cache[k]
  {
    if key in cache || |cache| < MAX_CACHE_ENTRIES {
      assert cache.Keys - cache'.Keys == {};
    } else {
      var victim :| IsVictim(cache, now, victim) && cache' == (cache - {victim})[key := cred];
      assert cache.Keys - cache'.Keys == {victim};
      assert victim in cache && victim !in cache';
    }
  }

  // ---------------------------------------------------------------------
  // Transparency: when eviction cannot be observed
  // ---------------------------------------------------------------------

  function LiveKeys(cache: Cache, now: Time): set<string> {
    set k | k in cache && cache[k].IsValid(now)
  }

  /** An accepted insert that finds 128 unexpired keys other than its own in the ideal map. */
  predicate Crowded(ideal: Option<SessionSlot>, now: Time, op: Op) {
    && op.CacheCredential?
    && AcceptsInsert(ideal, now, op.key)
    && |LiveKeys(ideal.value.cache, now) - {op.key}| >= MAX_CACHE_ENTRIES
  }

  ghost predicate CrowdedAt(issuedTo: Issuer, trace: seq<Record>, i: nat)
    requires i < |trace|
  {
    Crowded(Ideal(issuedTo, trace, i), trace[i].now, trace[i].op)
  }

  ghost predicate NeverCrowded(issuedTo: Issuer, trace: seq<Record>) {
    forall i :: 0 <= i < |trace| ==> !CrowdedAt(issuedTo, trace, i)
  }

  /** Every lookup at this instant is answered as the ideal map answers it. */
  ghost predicate AgreesAt(slot: Option<SessionSlot>, ideal: Option<SessionSlot>, now: Time) {
    forall key :: Answer(slot, now, key) == Answer(ideal, now, key)
  }

  ghost predicate Transparent(issuedTo: Issuer, states: seq<Option<SessionSlot>>, trace: seq<Record>)
    requires |states| == |trace| + 1
  {
    forall i :: 0 <= i < |trace| ==> AgreesAt(states[i + 1], Ideal(issuedTo, trace, i + 1), trace[i].now)
  }

  lemma AgreementLasts(slot: Option<SessionSlot>, ideal: Option<SessionSlot>, now: Time, later: Time)
    requires Shadows(slot, ideal) && AgreesAt(slot, ideal, now) && now <= later
    ensures AgreesAt(slot, ideal, later)
  {
    forall key ensures Answer(slot, later, key) == Answer(ideal, later, key) {
      assert Answer(slot, now, key) == Answer(ideal, now, key);
    }
  }

  /** A full cache under an uncrowded ideal map holds an expired entry, so only that is lost. */
  lemma UncrowdedInsertAgrees(slot: SessionSlot, ideal: SessionSlot, now: Time, key: string, cred: CachedCredential,
                              cache': Cache)
    requires Shadows(Some(slot), Some(ideal)) && AgreesAt(Some(slot), Some(ideal), now)
    requires AcceptsInsert(Some(slot), now, key)
    requires Inserted(slot.cache, now, key, cred, cache')
    requires |LiveKeys(ideal.cache, now) - {key}| < MAX_CACHE_ENTRIES
    ensures AgreesAt(Some(slot.(cache := cache')), Some(ideal.(cache := ideal.cache[key := cred])), now)
  {
    if key !in slot.cache && |slot.cache| >= MAX_CACHE_ENTRIES && !HasExpired(slot.cache, now) {
      SubsetIsNoLarger(slot.cache.Keys, LiveKeys(ideal.cache, now) - {key});
      assert false;
    }
    forall k ensures Answer(Some(slot.(cache := cache')), now, k)
                     == Answer(Some(ideal.(cache := ideal.cache[key := cred])), now, k)
    {
      assert Answer(Some(slot), now, k) == Answer(Some(ideal), now, k);
    }
  }

  /** A crowded insert evicts a credential the ideal map still serves. */
  lemma CrowdedInsertDiverges(slot: SessionSlot, ideal: SessionSlot, now: Time, key: string, cred: CachedCredential,
                              cache': Cache)
    requires Shadows(Some(slot), Some(ideal)) && AgreesAt(Some(slot), Some(ideal), now)
    requires AcceptsInsert(Some(slot), now, key)
    requires Inserted(slot.cache, now, key, cred, cache')
    requires |LiveKeys(ideal.cache, now) - {key}| >= MAX_CACHE_ENTRIES
    ensures !AgreesAt(Some(slot.(cache := cache')), Some(ideal.(cache := ideal.cache[key := cred])), now)
  {
    var others := LiveKeys(ideal.cache, now) - {key};
    forall k | k in others ensures k in slot.cache {
      assert Answer(Some(slot), now, k) == Answer(Some(ideal), now, k);
    }
    SubsetIsNoLarger(others, slot.cache.Keys);
    EqualSizeSubset(others, slot.cache.Keys);
    assert forall k :: k in slot.cache ==> k in others;
    assert key !in slot.cache;
    var victim :| IsVictim(slot.cache, now, victim) && cache' == (slot.cache - {victim})[key := cred];
    assert Answer(Some(slot.(cache := cache')), now, victim) == None;
    assert Answer(Some(ideal.(cache := ideal.cache[key := cred])), now, victim) != None;
  }

  lemma EqualSizeSubset<T>(small: set<T>, large: set<T>)
    requires small <= large && |small| >= |large|
    ensures small == large
  {
    assert large == small + (large - small);
  }

  /** Other operations keep agreement: nothing but an accepted insert evicts. */
  lemma StepAgrees(issuedTo: Issuer, slot: Option<SessionSlot>, ideal: Option<SessionSlot>, r: Record,
                   slot': Option<SessionSlot>)
    requires Shadows(slot, ideal) && AgreesAt(slot, ideal, r.now)
    requires Step(issuedTo, slot, r.now, r.op, r.reply, slot')
    ensures AgreesAt(slot', ApplyUnbounded(issuedTo, ideal, r.now, r.op).0, r.now)
            <==> !Crowded(ideal, r.now, r.op)
  {
    if r.op.CacheCredential? && AcceptsInsert(slot, r.now, r.op.key) {
      if Crowded(ideal, r.now, r.op) {
        CrowdedInsertDiverges(slot.value, ideal.value, r.now, r.op.key, r.op.cred, slot'.value.cache);
      } else {
        UncrowdedInsertAgrees(slot.value, ideal.value, r.now, r.op.key, r.op.cred, slot'.value.cache);
      }
    } else {
      var ideal' := ApplyUnbounded(issuedTo, ideal, r.now, r.op).0;
      forall k ensures Answer(slot', r.now, k) == Answer(ideal', r.now, k) {
        assert Answer(slot, r.now, k) == Answer(ideal, r.now, k);
      }
    }
  }

  lemma {:induction false} UncrowdedPrefixAgrees(
    issuedTo: Issuer, states: seq<Option<SessionSlot>>, trace: seq<Record>, n: nat, now: Time)
    requires IsRun(issuedTo, states, trace) && n <= |trace|
    requires forall i :: 0 <= i < n ==> !CrowdedAt(issuedTo, trace, i)
    requires n > 0 ==> trace[n - 1].now <= now
    ensures AgreesAt(states[n], Ideal(issuedTo, trace, n), now)
  {
    CacheIsBoundedSubMap(issuedTo, states, trace, n);
    if n > 0 {
      var r := trace[n - 1];
      assert !CrowdedAt(issuedTo, trace, n - 1);
      assert StepAt(issuedTo, states, trace, n - 1);
      UncrowdedPrefixAgrees(issuedTo, states, trace, n - 1, r.now);
      CacheIsBoundedSubMap(issuedTo, states, trace, n - 1);
      StepAgrees(issuedTo, states[n - 1], Ideal(issuedTo, trace, n - 1), r, states[n]);
      AgreementLasts(states[n], Ideal(issuedTo, trace, n), r.now, now);
    }
  }

  /** The first crowded insert of a run leaves a lookup that the ideal map answers and the cache does not. */
  lemma FirstCrowdedDiverges(issuedTo: Issuer, states: seq<Option<SessionSlot>>, trace: seq<Record>, i: nat)
    requires IsRun(issuedTo, states, trace) && i < |trace|
    requires CrowdedAt(issuedTo, trace, i)
    requires forall j :: 0 <= j < i ==> !CrowdedAt(issuedTo, trace, j)
    ensures !AgreesAt(states[i + 1], Ideal(issuedTo, trace, i + 1), trace[i].now)
  {
    UncrowdedPrefixAgrees(issuedTo, states, trace, i, trace[i].now);
    CacheIsBoundedSubMap(issuedTo, states, trace, i);
    assert StepAt(issuedTo, states, trace, i);
    StepAgrees(issuedTo, states[i], Ideal(issuedTo, trace, i), trace[i], states[i + 1]);
  }

  lemma {:induction false} TransparentRunIsUncrowded(
    issuedTo: Issuer, states: seq<Option<SessionSlot>>, trace: seq<Record>, n: nat)
    requires IsRun(issuedTo, states, trace) && Transparent(issuedTo, states, trace)
    requires n <= |trace|
    ensures forall i :: 0 <= i < n ==> !CrowdedAt(issuedTo, trace, i)
  {
    if n > 0 {
      TransparentRunIsUncrowded(issuedTo, states, trace, n - 1);
      if CrowdedAt(issuedTo, trace, n - 1) {
        FirstCrowdedDiverges(issuedTo, states, trace, n - 1);
      }
    }
  }

  /** The cache is indistinguishable from the ideal map throughout a run exactly when no insert was crowded. */
  lemma TransparentIffNeverCrowded(issuedTo: Issuer, states: seq<Option<SessionSlot>>, trace: seq<Record>)
    requires IsRun(issuedTo, states, trace)
    ensures Transparent(issuedTo, states, trace) <==> NeverCrowded(issuedTo, trace)
  {
    if NeverCrowded(issuedTo, trace) {
      forall i | 0 <= i < |trace|
        ensures AgreesAt(states[i + 1], Ideal(issuedTo, trace, i + 1), trace[i].now)
      {
        UncrowdedPrefixAgrees(issuedTo, states, trace, i + 1, trace[i].now);
      }
    }
    if Transparent(issuedTo, states, trace) {
      TransparentRunIsUncrowded(issuedTo, states, trace, |trace|);
    }
  }

  /** Two slots that agree on every lookup give the same reply to every operation. */
  lemma AgreeingSlotsReplyAlike(issuedTo: Issuer, slot: Option<SessionSlot>, ideal: Option<SessionSlot>, r: Record,
                                slot': Option<SessionSlot>)
    requires Shadows(slot, ideal) && AgreesAt(slot, ideal, r.now)
    requires Step(issuedTo, slot, r.now, r.op, r.reply, slot')
    ensures r.reply == ApplyUnbounded(issuedTo, ideal, r.now, r.op).1
  {
  }

  /** In an uncrowded run every reply, of every operation, is the reply of the unbounded agent. */
  lemma UncrowdedRunRepliesAsIdeal(issuedTo: Issuer, states: seq<Option<SessionSlot>>, trace: seq<Record>, n: nat)
    requires IsRun(issuedTo, states, trace) && NeverCrowded(issuedTo, trace)
    requires n < |trace|
    ensures trace[n].reply == ApplyUnbounded(issuedTo, Ideal(issuedTo, trace, n), trace[n].now, trace[n].op).1
  {
    var ideal := Ideal(issuedTo, trace, n);
    assert Shadows(states[n], ideal) by { CacheIsBoundedSubMap(issuedTo, states, trace, n); }
    assert AgreesAt(states[n], ideal, trace[n].now) by {
      if n > 0 {
        assert trace[n - 1].now <= trace[n].now;
      }
      UncrowdedPrefixAgrees(issuedTo, states, trace, n, trace[n].now);
    }
    assert StepAt(issuedTo, states, trace, n);
    AgreeingSlotsReplyAlike(issuedTo, states[n], ideal, trace[n], states[n + 1]);
  }

  // ---------------------------------------------------------------------
  // Isolation: a credential never outlives its slot
  // ---------------------------------------------------------------------

  /** The step dropped the slot or installed a new one. */
  predicate ReplacesSlot(r: Record) {
    r.op.StoreSession? || r.op.ClearSession? || (r.op.StoreIfNoLiveSession? && r.reply == Stored(true))
  }

  predicate AcceptedInsert(r: Record, key: string) {
    r.op.CacheCredential? && r.op.key == key && r.reply == Done
  }

  predicate AcceptedSsh(r: Record) {
    r.op.StoreSsh? && r.reply == Done
  }

  ghost predicate SameSlot(states: seq<Option<SessionSlot>>, trace: seq<Record>, from: nat, to: nat) {
    && from <= to < |states| == |trace| + 1
    && states[from].Some? && states[to].Some?
    && states[from].value.session == states[to].value.session
    && states[from].value.serverUrl == states[to].value.serverUrl
    && forall m :: from <= m < to ==> !ReplacesSlot(trace[m])
  }

  /** Step `j` cached `cred` under `key`, in the slot still held at `n`, and nothing since replaced it. */
  ghost predicate CachedBy(states: seq<Option<SessionSlot>>, trace: seq<Record>, n: nat, key: string,
                           cred: CachedCredential, j: nat)
  {
    && j < n
    && SameSlot(states, trace, j + 1, n)
    && trace[j].op == CacheCredential(key, cred) && trace[j].reply == Done
    && trace[j].now < states[n].value.session.expiresAt
    && forall m :: j < m < n ==> !trace[m].op.ClearCache? && !AcceptedInsert(trace[m], key)
  }

  ghost predicate SshStoredBy(issuedTo: Issuer, states: seq<Option<SessionSlot>>, trace: seq<Record>, n: nat,
                              creds: SshCredentials, j: nat)
  {
    && j < n
    && SameSlot(states, trace, j + 1, n)
    && trace[j].op == StoreSsh(creds) && trace[j].reply == Done
    && trace[j].now < states[n].value.session.expiresAt
    && issuedTo(creds.keyId, states[n].value.session.userEmail, states[n].value.serverUrl)
    && forall m :: j < m < n ==> !trace[m].op.ClearSsh? && !AcceptedSsh(trace[m])
  }

  lemma StepKeepsSlot(issuedTo: Issuer, slot: Option<SessionSlot>, r: Record, slot': Option<SessionSlot>)
    requires Step(issuedTo, slot, r.now, r.op, r.reply, slot')
    ensures slot.Some? && !ReplacesSlot(r) ==>
              slot'.Some? && slot'.value.session == slot.value.session && slot'.value.serverUrl == slot.value.serverUrl
    ensures slot.None? && !ReplacesSlot(r) ==> slot'.None?
    ensures ReplacesSlot(r) && slot'.Some? ==> slot'.value.cache == map[] && slot'.value.ssh == None
  {
  }

  /** A step other than an accepted insert of `key` brings no entry for `key` into the cache. */
  lemma EntryPersists(issuedTo: Issuer, slot: Option<SessionSlot>, r: Record, slot': Option<SessionSlot>, key: string)
    requires Step(issuedTo, slot, r.now, r.op, r.reply, slot')
    requires slot.Some? ==> |slot.value.cache| <= MAX_CACHE_ENTRIES
    requires slot'.Some? && key in slot'.value.cache
    ensures AcceptedInsert(r, key) ==> slot'.value.cache[key] == r.op.cred && IsLive(slot, r.now)
    ensures !AcceptedInsert(r, key) ==>
              && slot.Some? && key in slot.value.cache && slot'.value.cache[key] == slot.value.cache[key]
              && !r.op.ClearCache?
    ensures slot.Some? && !ReplacesSlot(r)
    ensures slot'.value.session == slot.value.session && slot'.value.serverUrl == slot.value.serverUrl
  {
    if r.op.CacheCredential? && AcceptsInsert(slot, r.now, r.op.key) {
      InsertedFits(slot.value.cache, r.now, r.op.key, r.op.cred, slot'.value.cache);
    }
  }

  lemma OriginPersists(states: seq<Option<SessionSlot>>, trace: seq<Record>, n: nat, key: string,
                       cred: CachedCredential, j: nat)
    requires n < |trace| && CachedBy(states, trace, n, key, cred, j)
    requires states[n + 1].Some? && !ReplacesSlot(trace[n])
    requires states[n + 1].value.session == states[n].value.session
    requires states[n + 1].value.serverUrl == states[n].value.serverUrl
    requires !trace[n].op.ClearCache? && !AcceptedInsert(trace[n], key)
    ensures CachedBy(states, trace, n + 1, key, cred, j)
  {
  }

  lemma {:induction false} CachedEntryOrigin(
    issuedTo: Issuer, states: seq<Option<SessionSlot>>, trace: seq<Record>, n: nat, key: string) returns (j: nat)
    requires IsRun(issuedTo, states, trace) && n <= |trace|
    requires states[n].Some? && key in states[n].value.cache
    ensures CachedBy(states, trace, n, key, states[n].value.cache[key], j)
  {
    CacheFits(issuedTo, states, trace, n - 1);
    assert StepAt(issuedTo, states, trace, n - 1);
    EntryPersists(issuedTo, states[n - 1], trace[n - 1], states[n], key);
    if AcceptedInsert(trace[n - 1], key) {
      j := n - 1;
    } else {
      j := CachedEntryOrigin(issuedTo, states, trace, n - 1, key);
      OriginPersists(states, trace, n - 1, key, states[n].value.cache[key], j);
    }
  }

  lemma {:induction false} SshOrigin(
    issuedTo: Issuer, states: seq<Option<SessionSlot>>, trace: seq<Record>, n: nat) returns (j: nat)
    requires IsRun(issuedTo, states, trace) && n <= |trace|
    requires states[n].Some? && states[n].value.ssh.Some?
    ensures SshStoredBy(issuedTo, states, trace, n, states[n].value.ssh.value, j)
  {
    var r := trace[n - 1];
    assert StepAt(issuedTo, states, trace, n - 1);
    StepKeepsSlot(issuedTo, states[n - 1], r, states[n]);
    if AcceptedSsh(r) {
      j := n - 1;
    } else {
      j := SshOrigin(issuedTo, states, trace, n - 1);
    }
  }

  /**
   Every cached credential served was the last one cached for its key since the slot was installed,
   under the very session that is live when it is served.
   */
  lemma ServedCredentialIsOwned(issuedTo: Issuer, states: seq<Option<SessionSlot>>, trace: seq<Record>, n: nat)
    requires IsRun(issuedTo, states, trace) && n < |trace|
    requires trace[n].op.GetCached? && trace[n].reply.CachedIs? && trace[n].reply.answer.Some?
    ensures exists j :: CachedBy(states, trace, n, trace[n].op.key, trace[n].reply.answer.value, j)
    ensures states[n].Some? && trace[n].now < states[n].value.session.expiresAt
    ensures trace[n].now < trace[n].reply.answer.value.expiresAt
  {
    assert StepAt(issuedTo, states, trace, n);
    var j := CachedEntryOrigin(issuedTo, states, trace, n, trace[n].op.key);
  }

  /** Every SSH certificate served was stored under the live session and names its user and server. */
  lemma ServedCertificateIsOwned(issuedTo: Issuer, states: seq<Option<SessionSlot>>, trace: seq<Record>, n: nat)
    requires IsRun(issuedTo, states, trace) && n < |trace|
    requires trace[n].op.GetSsh? && trace[n].reply.SshIs? && trace[n].reply.served.Some?
    ensures exists j :: SshStoredBy(issuedTo, states, trace, n, trace[n].reply.served.value, j)
    ensures states[n].Some? && trace[n].now < states[n].value.session.expiresAt
    ensures trace[n].now <= trace[n].reply.served.value.expiresAt
  {
    assert StepAt(issuedTo, states, trace, n);
    var j := SshOrigin(issuedTo, states, trace, n);
  }

  // ---------------------------------------------------------------------
  // A live session is replaced only by a login or a logout
  // ---------------------------------------------------------------------

  /** The session installed by step `i` is still held at `n` unless it expired, or a store or clear came since. */
  lemma {:induction false} LiveSessionStays(
    issuedTo: Issuer, states: seq<Option<SessionSlot>>, trace: seq<Record>, i: nat, n: nat)
    requires IsRun(issuedTo, states, trace)
    requires i < n <= |trace|
    requires trace[i].op.StoreSession? || (trace[i].op.StoreIfNoLiveSession? && trace[i].reply == Stored(true))
    requires forall m :: i < m < n ==> !trace[m].op.StoreSession? && !trace[m].op.ClearSession?
    requires trace[n - 1].now < trace[i].op.session.expiresAt
    ensures SameSlot(states, trace, i + 1, n)
    ensures states[n].value.session == trace[i].op.session && states[n].value.serverUrl == trace[i].op.serverUrl
  {
    assert StepAt(issuedTo, states, trace, n - 1);
    if n > i + 1 {
      assert trace[n - 2].now <= trace[n - 1].now;
      LiveSessionStays(issuedTo, states, trace, i, n - 1);
      StepKeepsSlot(issuedTo, states[n - 1], trace[n - 1], states[n]);
    }
  }

  // ---------------------------------------------------------------------
  // The agent, updating its slot in place
  // ---------------------------------------------------------------------

  /** `iter().find(|v| !v.is_valid())`, in whatever order the map yields its entries. */
  method FindExpired(cache: Cache, now: Time) returns (found: Option<string>)
    ensures found.Some? ==> found.value in cache && cache[found.value].expiresAt <= now
    ensures found.None? ==> forall k :: k in cache ==> now < cache[k].expiresAt
  {
    var rest := cache.Keys;
    while rest != {}
      invariant rest <= cache.Keys
      invariant forall k :: k in cache && k !in rest ==> cache[k].IsValid(now)
      decreases |rest|
    {
      var k :| k in rest;
      if !cache[k].IsValid(now) {
        return Some(k);
      }
      rest := rest - {k};
    }
    found := None;
  }

  /** `iter().min_by_key(|v| v.expires_at())`. */
  method SoonestToExpire(cache: Cache) returns (found: Option<string>)
    ensures found.Some? ==> IsSoonest(cache, found.value)
    ensures found.None? ==> cache == map[]
  {
    var rest := cache.Keys;
    found := None;
    while rest != {}
      invariant rest <= cache.Keys
      invariant found.None? ==> rest == cache.Keys
      invariant found.Some? ==> found.value in cache
      invariant found.Some? ==>
                  forall k :: k in cache && k !in rest ==> cache[found.value].expiresAt <= cache[k].expiresAt
      decreases |rest|
    {
      var k :| k in rest;
      if found.None? || cache[k].expiresAt < cache[found.value].expiresAt {
        found := Some(k);
      }
      rest := rest - {k};
    }
  }

  class Agent {
    const issuedTo: Issuer
    var slot: Option<SessionSlot>
    ghost var states: seq<Option<SessionSlot>>
    ghost var trace: seq<Record>

    /** The recorded history is a run that ends in the current slot. */
    ghost predicate Valid()
      reads this
    {
      IsRun(issuedTo, states, trace) && states[|trace|] == slot
    }

    ghost predicate ClockAt(now: Time)
      reads this
    {
      trace != [] ==> trace[|trace| - 1].now <= now
    }

    constructor (issuedTo: Issuer)
      ensures Valid() && this.issuedTo == issuedTo && trace == [] && slot == None
    {
      this.issuedTo := issuedTo;
      slot, states, trace := None, [None], [];
    }

    ghost method Log(now: Time, op: Op, reply: Reply, oldSlot: Option<SessionSlot>)
      requires IsRun(issuedTo, states, trace) && states[|trace|] == oldSlot && ClockAt(now)
      requires Step(issuedTo, oldSlot, now, op, reply, slot)
      modifies this`states, this`trace
      ensures Valid()
      ensures trace == old(trace) + [Record(now, op, reply)] && states == old(states) + [slot]
    {
      RunExtends(issuedTo, states, trace, Record(now, op, reply), slot);
      states, trace := states + [slot], trace + [Record(now, op, reply)];
    }

    method StoreSession(now: Time, session: Session, serverUrl: Option<string>)
      requires Valid() && ClockAt(now)
      modifies this
      ensures Valid() && slot == Some(FreshSlot(session, serverUrl))
      ensures trace == old(trace) + [Record(now, Op.StoreSession(session, serverUrl), Stored(true))]
      ensures states == old(states) + [slot]
    {
      ghost var before := slot;
      slot := Some(FreshSlot(session, serverUrl));
      Log(now, Op.StoreSession(session, serverUrl), Stored(true), before);
    }

    method StoreSessionIfNoLiveSession(now: Time, session: Session, serverUrl: Option<string>) returns (stored: bool)
      requires Valid() && ClockAt(now)
      modifies this
      ensures Valid()
      ensures stored <==> !IsLive(old(slot), now)
      ensures slot == if stored then Some(FreshSlot(session, serverUrl)) else old(slot)
      ensures trace == old(trace) + [Record(now, StoreIfNoLiveSession(session, serverUrl), Stored(stored))]
      ensures states == old(states) + [slot]
    {
      ghost var before := slot;
      if slot.Some? && !slot.value.session.IsExpired(now) {
        stored := false;
      } else {
        slot := Some(FreshSlot(session, serverUrl));
        stored := true;
      }
      Log(now, StoreIfNoLiveSession(session, serverUrl), Stored(stored), before);
    }

    method ClearSession(now: Time)
      requires Valid() && ClockAt(now)
      modifies this
      ensures Valid() && slot == None
      ensures trace == old(trace) + [Record(now, Op.ClearSession, Done)] && states == old(states) + [slot]
    {
      ghost var before := slot;
      slot := None;
      Log(now, Op.ClearSession, Done, before);
    }

    method StoreSshCredentials(now: Time, creds: SshCredentials) returns (refusal: Option<SshRefusal>)
      requires Valid() && ClockAt(now)
      modifies this
      ensures Valid()
      ensures refusal == Some(NoSshSession) <==> !IsLive(old(slot), now)
      ensures refusal == None ==> issuedTo(creds.keyId, old(slot).value.session.userEmail, old(slot).value.serverUrl)
      ensures slot == if refusal.None? then Some(old(slot).value.(ssh := Some(creds))) else old(slot)
      ensures trace == old(trace) + [Record(now, StoreSsh(creds),
                                            if refusal.None? then Done else SshRefused(refusal.value))]
      ensures states == old(states) + [slot]
    {
      ghost var before := slot;
      if !(slot.Some? && !slot.value.session.IsExpired(now)) {
        refusal := Some(NoSshSession);
      } else if !issuedTo(creds.keyId, slot.value.session.userEmail, slot.value.serverUrl) {
        refusal := Some(NotIssuedToSession);
      } else {
        slot := Some(slot.value.(ssh := Some(creds)));
        refusal := None;
      }
      Log(now, StoreSsh(creds), if refusal.None? then Done else SshRefused(refusal.value), before);
    }

    method ClearSshCredentials(now: Time)
      requires Valid() && ClockAt(now)
      modifies this
      ensures Valid()
      ensures slot == if old(slot).Some? then Some(old(slot).value.(ssh := None)) else None
      ensures trace == old(trace) + [Record(now, ClearSsh, Done)] && states == old(states) + [slot]
    {
      ghost var before := slot;
      if slot.Some? {
        slot := Some(slot.value.(ssh := None));
      }
      Log(now, ClearSsh, Done, before);
    }

    /** Insert under the session's slot, evicting one entry when a new key meets a full cache. */
    method CacheCredential(now: Time, key: string, cred: CachedCredential) returns (refusal: Option<CacheRefusal>)
      requires Valid() && ClockAt(now)
      modifies this
      ensures Valid()
      ensures refusal == Some(KeyTooLong) <==> Utf8Len(key) > MAX_CREDENTIAL_TYPE_LEN
      ensures refusal == None <==> AcceptsInsert(old(slot), now, key)
      ensures refusal.Some? ==> slot == old(slot)
      ensures refusal.None? ==>
                && slot.Some?
                && slot.value == old(slot).value.(cache := slot.value.cache)
                && Inserted(old(slot).value.cache, now, key, cred, slot.value.cache)
      ensures trace == old(trace) + [Record(now, Op.CacheCredential(key, cred),
                                            if refusal.None? then Done else CacheRefused(refusal.value))]
      ensures states == old(states) + [slot]
    {
      ghost var before := slot;
      if Utf8Len(key) > MAX_CREDENTIAL_TYPE_LEN {
        refusal := Some(KeyTooLong);
      } else if !(slot.Some? && !slot.value.session.IsExpired(now)) {
        refusal := Some(NoSession);
      } else {
        var cache := slot.value.cache;
        if key !in cache && |cache| >= MAX_CACHE_ENTRIES {
          var evict := FindExpired(cache, now);
          if evict.None? {
            evict := SoonestToExpire(cache);
          }
          if evict.Some? {
            assert IsVictim(cache, now, evict.value);
            cache := cache - {evict.value};
          }
        }
        cache := cache[key := cred];
        slot := Some(slot.value.(cache := cache));
        refusal := None;
      }
      Log(now, Op.CacheCredential(key, cred), if refusal.None? then Done else CacheRefused(refusal.value), before);
    }

    method ClearCredentialCache(now: Time)
      requires Valid() && ClockAt(now)
      modifies this
      ensures Valid()
      ensures slot == if old(slot).Some? then Some(old(slot).value.(cache := map[])) else None
      ensures trace == old(trace) + [Record(now, ClearCache, Done)] && states == old(states) + [slot]
    {
      ghost var before := slot;
      if slot.Some? {
        slot := Some(slot.value.(cache := map[]));
      }
      Log(now, ClearCache, Done, before);
    }

    /** Serve a cached credential; whatever is served is owned by the live session. */
    method GetCachedCredential(now: Time, key: string) returns (answer: Option<CachedCredential>)
      requires Valid() && ClockAt(now)
      modifies this`states, this`trace
      ensures Valid()
      ensures answer == Answer(slot, now, key)
      ensures answer.Some? ==> exists j :: CachedBy(old(states), old(trace), |old(trace)|, key, answer.value, j)
      ensures trace == old(trace) + [Record(now, GetCached(key), CachedIs(answer))] && states == old(states) + [slot]
      ensures NeverCrowded(issuedTo, trace) ==> answer == Answer(Ideal(issuedTo, trace, |old(trace)|), now, key)
    {
      answer := None;
      if slot.Some? && !slot.value.session.IsExpired(now) {
        if key in slot.value.cache && slot.value.cache[key].IsValid(now) {
          answer := Some(slot.value.cache[key]);
        }
      }
      ghost var n := |trace|;
      if answer.Some? {
        ghost var j := CachedEntryOrigin(issuedTo, states, trace, n, key);
      }
      Log(now, GetCached(key), CachedIs(answer), slot);
      if NeverCrowded(issuedTo, trace) {
        UncrowdedRunRepliesAsIdeal(issuedTo, states, trace, n);
      }
    }

    method GetValidSshCredentials(now: Time) returns (served: Option<SshCredentials>)
      requires Valid() && ClockAt(now)
      modifies this`states, this`trace
      ensures Valid()
      ensures served == SshAnswer(slot, now)
      ensures served.Some? ==> exists j :: SshStoredBy(issuedTo, old(states), old(trace), |old(trace)|, served.value, j)
      ensures trace == old(trace) + [Record(now, GetSsh, SshIs(served))] && states == old(states) + [slot]
    {
      served := None;
      if slot.Some? && !slot.value.session.IsExpired(now) {
        if slot.value.ssh.Some? && !slot.value.ssh.value.IsExpired(now) {
          served := slot.value.ssh;
          ghost var j := SshOrigin(issuedTo, states, trace, |trace|);
        }
      }
      Log(now, GetSsh, SshIs(served), slot);
    }

    /** The session and its server, read under one lock. */
    method SessionInfo(now: Time) returns (current: Option<(Session, Option<string>)>)
      requires Valid() && ClockAt(now)
      modifies this`states, this`trace
      ensures Valid()
      ensures current == if IsLive(slot, now) then Some((slot.value.session, slot.value.serverUrl)) else None
      ensures trace == old(trace) + [Record(now, GetSession, SessionIs(current))] && states == old(states) + [slot]
    {
      current := None;
      if slot.Some? && !slot.value.session.IsExpired(now) {
        current := Some((slot.value.session, slot.value.serverUrl));
      }
      Log(now, GetSession, SessionIs(current), slot);
    }

    method GetToken(now: Time) returns (token: Option<string>)
      requires Valid() && ClockAt(now)
      modifies this`states, this`trace
      ensures Valid()
      ensures token == if IsLive(slot, now) then Some(slot.value.session.token) else None
      ensures trace == old(trace) + [Record(now, Op.GetToken, TokenIs(token))] && states == old(states) + [slot]
    {
      token := None;
      if slot.Some? && !slot.value.session.IsExpired(now) {
        token := Some(slot.value.session.token);
      }
      Log(now, Op.GetToken, TokenIs(token), slot);
    }

    /** Whether a certificate is held at all; neither it nor the session need be valid. */
    method HasSshCredentials(now: Time) returns (held: bool)
      requires Valid() && ClockAt(now)
      modifies this`states, this`trace
      ensures Valid()
      ensures held <==> slot.Some? && slot.value.ssh.Some?
      ensures trace == old(trace) + [Record(now, HasSsh, SshHeld(held))] && states == old(states) + [slot]
    {
      held := slot.Some? && slot.value.ssh.Some?;
      Log(now, HasSsh, SshHeld(held), slot);
    }
  }
}
