/**
 What the agent answers, said in clock readings: over any run, from the steps taken, without the functions that the
 steps are computed by.
 */
module Serving {
  import opened Options
  import opened AgentState

  /** The reply to every operation, from the slot and the clock. */
  lemma RepliesInPlainTerms(issuedTo: Issuer, states: seq<Option<SessionSlot>>, trace: seq<Record>, n: nat)
    requires IsRun(issuedTo, states, trace) && n < |trace|
    ensures var now, slot, reply := trace[n].now, states[n], trace[n].reply;
            var live := slot.Some? && now < slot.value.session.expiresAt;
            match trace[n].op
            case StoreSession(_, _) => reply == Stored(true)
            case StoreIfNoLiveSession(_, _) => reply == Stored(!live)
            case StoreSsh(creds) =>
              reply == if !live then SshRefused(NoSshSession)
                       else if issuedTo(creds.keyId, slot.value.session.userEmail, slot.value.serverUrl) then Done
                       else SshRefused(NotIssuedToSession)
            case CacheCredential(key, _) =>
              reply == if Utf8Len(key) > 256 then CacheRefused(KeyTooLong)
                       else if live then Done else CacheRefused(NoSession)
            case GetSession =>
              reply == SessionIs(if live then Some((slot.value.session, slot.value.serverUrl)) else None)
            case GetToken => reply == TokenIs(if live then Some(slot.value.session.token) else None)
            case HasSsh => reply == SshHeld(slot.Some? && slot.value.ssh.Some?)
            case GetSsh => reply.SshIs? && (reply.served.Some? ==> live)
            case GetCached(_) => reply.CachedIs? && (reply.answer.Some? ==> live)
            case _ => reply == Done
  {
    assert StepAt(issuedTo, states, trace, n);
  }

  /** Steps that neither replace nor drop the slot keep its session and server. */
  lemma {:induction false} SlotIsKept(
    issuedTo: Issuer, states: seq<Option<SessionSlot>>, trace: seq<Record>, from: nat, to: nat)
    requires IsRun(issuedTo, states, trace) && from <= to <= |trace| && states[from].Some?
    requires forall m :: from <= m < to ==> !ReplacesSlot(trace[m])
    ensures states[to].Some?
    ensures states[to].value.session == states[from].value.session
    ensures states[to].value.serverUrl == states[from].value.serverUrl
  {
    if from < to {
      SlotIsKept(issuedTo, states, trace, from, to - 1);
      assert StepAt(issuedTo, states, trace, to - 1);
      StepKeepsSlot(issuedTo, states[to - 1], trace[to - 1], states[to]);
    }
  }

  // ---------------------------------------------------------------------
  // Cached credentials
  // ---------------------------------------------------------------------

  /** The step neither replaces the slot, nor clears the cache, nor stores something for the key. */
  predicate LeavesKey(r: Record, key: string) {
    !ReplacesSlot(r) && !r.op.ClearCache? && !AcceptedInsert(r, key)
  }

  ghost predicate KeyIsLeft(trace: seq<Record>, from: nat, to: nat, key: string) {
    to <= |trace| && forall m :: from <= m < to ==> LeavesKey(trace[m], key)
  }

  /** Step `j` stored `cred` for `key`; up to `n` nothing replaced it, cleared the cache or replaced the slot. */
  ghost predicate LastCached(trace: seq<Record>, j: nat, n: nat, key: string, cred: CachedCredential) {
    && j < n <= |trace|
    && trace[j].op == CacheCredential(key, cred) && trace[j].reply == Done
    && KeyIsLeft(trace, j + 1, n, key)
  }

  ghost predicate IdealHolds(ideal: Option<SessionSlot>, key: string, cred: CachedCredential) {
    ideal.Some? && key in ideal.value.cache && ideal.value.cache[key] == cred
  }

  lemma IdealStepHolds(issuedTo: Issuer, slot: Option<SessionSlot>, ideal: Option<SessionSlot>, r: Record,
                       slot': Option<SessionSlot>, key: string, cred: CachedCredential)
    requires Shadows(slot, ideal) && Step(issuedTo, slot, r.now, r.op, r.reply, slot')
    requires IdealHolds(ideal, key, cred)
    requires LeavesKey(r, key)
    ensures IdealHolds(ApplyUnbounded(issuedTo, ideal, r.now, r.op).0, key, cred)
  {
  }

  lemma {:induction false} IdealKeepsCached(issuedTo: Issuer, states: seq<Option<SessionSlot>>, trace: seq<Record>,
                                            j: nat, n: nat, key: string, cred: CachedCredential)
    requires IsRun(issuedTo, states, trace) && LastCached(trace, j, n, key, cred)
    ensures IdealHolds(Ideal(issuedTo, trace, n), key, cred)
  {
    CacheIsBoundedSubMap(issuedTo, states, trace, n - 1);
    assert StepAt(issuedTo, states, trace, n - 1);
    if n - 1 == j {
      assert AcceptsInsert(states[j], trace[j].now, key);
    } else {
      IdealKeepsCached(issuedTo, states, trace, j, n - 1, key, cred);
      IdealStepHolds(issuedTo, states[n - 1], Ideal(issuedTo, trace, n - 1), trace[n - 1], states[n], key, cred);
    }
  }

  /**
   In a run whose cache was never crowded, a lookup answers the last credential stored for the key under this slot
   exactly while neither it nor the session has expired.
   */
  lemma CachedAnswerIs(issuedTo: Issuer, states: seq<Option<SessionSlot>>, trace: seq<Record>, j: nat, n: nat,
                       key: string, cred: CachedCredential)
    requires IsRun(issuedTo, states, trace) && NeverCrowded(issuedTo, trace) && n < |trace|
    requires LastCached(trace, j, n, key, cred) && trace[n].op == GetCached(key)
    ensures states[n].Some? && states[j].Some? && states[n].value.session == states[j].value.session
    ensures trace[n].reply ==
            CachedIs(if trace[n].now < cred.expiresAt && trace[n].now < states[n].value.session.expiresAt
                     then Some(cred) else None)
  {
    assert StepAt(issuedTo, states, trace, j);
    assert states[j].Some?;
    forall m | j <= m < n ensures !ReplacesSlot(trace[m]) {
      assert m > j ==> LeavesKey(trace[m], key);
    }
    SlotIsKept(issuedTo, states, trace, j, n);
    IdealKeepsCached(issuedTo, states, trace, j, n, key, cred);
    CacheIsBoundedSubMap(issuedTo, states, trace, n);
    UncrowdedRunRepliesAsIdeal(issuedTo, states, trace, n);
  }

  /** Crowded or not, a key that was not stored since the slot came or the cache was cleared is a miss. */
  lemma NothingCachedIsMiss(issuedTo: Issuer, states: seq<Option<SessionSlot>>, trace: seq<Record>, n: nat, key: string)
    requires IsRun(issuedTo, states, trace) && n < |trace| && trace[n].op == GetCached(key)
    requires forall j, cred :: !LastCached(trace, j, n, key, cred)
    ensures trace[n].reply == CachedIs(None)
  {
    assert StepAt(issuedTo, states, trace, n);
    if trace[n].reply.answer.Some? {
      ServedCredentialIsOwned(issuedTo, states, trace, n);
      var cred := trace[n].reply.answer.value;
      var j :| CachedBy(states, trace, n, key, cred, j);
      assert LastCached(trace, j, n, key, cred);
    }
  }

  /** 128 other keys that a caller could count, all unexpired, are what crowds an insert. */
  lemma CrowdedInPlainTerms(ideal: Option<SessionSlot>, now: Time, op: Op)
    ensures Crowded(ideal, now, op) <==>
            && op.CacheCredential? && ideal.Some?
            && Utf8Len(op.key) <= 256 && now < ideal.value.session.expiresAt
            && |set k | k in ideal.value.cache && now < ideal.value.cache[k].expiresAt && k != op.key| >= 128
  {
    if op.CacheCredential? && ideal.Some? {
      assert LiveKeys(ideal.value.cache, now) - {op.key}
          == set k | k in ideal.value.cache && now < ideal.value.cache[k].expiresAt && k != op.key;
    }
  }

  // ---------------------------------------------------------------------
  // SSH certificates
  // ---------------------------------------------------------------------

  /** Step `j` stored the certificate; up to `n` nothing replaced it, cleared it or replaced the slot. */
  ghost predicate LastSsh(trace: seq<Record>, j: nat, n: nat, creds: SshCredentials) {
    && j < n <= |trace|
    && trace[j].op == StoreSsh(creds) && trace[j].reply == Done
    && forall m :: j < m < n ==> !ReplacesSlot(trace[m]) && !trace[m].op.ClearSsh? && !AcceptedSsh(trace[m])
  }

  lemma {:induction false} SshIsKept(issuedTo: Issuer, states: seq<Option<SessionSlot>>, trace: seq<Record>, j: nat,
                                     n: nat, creds: SshCredentials)
    requires IsRun(issuedTo, states, trace) && LastSsh(trace, j, n, creds)
    ensures states[n].Some? && states[n].value.ssh == Some(creds)
  {
    assert StepAt(issuedTo, states, trace, n - 1);
    if n - 1 > j {
      SshIsKept(issuedTo, states, trace, j, n - 1, creds);
    }
  }

  /** The certificate last accepted under this slot is served exactly while neither it nor the session has expired. */
  lemma SshAnswerIs(issuedTo: Issuer, states: seq<Option<SessionSlot>>, trace: seq<Record>, j: nat, n: nat,
                    creds: SshCredentials)
    requires IsRun(issuedTo, states, trace) && n < |trace|
    requires LastSsh(trace, j, n, creds) && trace[n].op == GetSsh
    ensures states[n].Some? && states[j].Some? && states[n].value.session == states[j].value.session
    ensures trace[n].reply ==
            SshIs(if trace[n].now < states[n].value.session.expiresAt && trace[n].now <= creds.expiresAt
                  then Some(creds) else None)
  {
    assert StepAt(issuedTo, states, trace, j);
    assert states[j].Some?;
    SlotIsKept(issuedTo, states, trace, j, n);
    SshIsKept(issuedTo, states, trace, j, n, creds);
    assert StepAt(issuedTo, states, trace, n);
  }

  /** With no certificate accepted since the slot came or it was cleared, none is served. */
  lemma NoSshIsServed(issuedTo: Issuer, states: seq<Option<SessionSlot>>, trace: seq<Record>, n: nat)
    requires IsRun(issuedTo, states, trace) && n < |trace| && trace[n].op == GetSsh
    requires forall j, creds :: !LastSsh(trace, j, n, creds)
    ensures trace[n].reply == SshIs(None)
  {
    assert StepAt(issuedTo, states, trace, n);
    if trace[n].reply.served.Some? {
      ServedCertificateIsOwned(issuedTo, states, trace, n);
      var creds := trace[n].reply.served.value;
      var j :| SshStoredBy(issuedTo, states, trace, n, creds, j);
      assert LastSsh(trace, j, n, creds);
    }
  }

  // ---------------------------------------------------------------------
  // Sessions
  // ---------------------------------------------------------------------

  /** A stored session answers for its token, user, expiry and server until it expires or is replaced or cleared. */
  lemma SessionAnswerIs(issuedTo: Issuer, states: seq<Option<SessionSlot>>, trace: seq<Record>, i: nat, n: nat)
    requires IsRun(issuedTo, states, trace) && i < n < |trace|
    requires trace[i].op.StoreSession? || (trace[i].op.StoreIfNoLiveSession? && trace[i].reply == Stored(true))
    requires forall m :: i < m < n ==> !trace[m].op.StoreSession? && !trace[m].op.ClearSession?
    requires trace[n].now < trace[i].op.session.expiresAt
    ensures trace[n].op == GetToken ==> trace[n].reply == TokenIs(Some(trace[i].op.session.token))
    ensures trace[n].op == GetSession ==>
              trace[n].reply == SessionIs(Some((trace[i].op.session, trace[i].op.serverUrl)))
    ensures trace[n].op.StoreIfNoLiveSession? ==> trace[n].reply == Stored(false) && states[n + 1] == states[n]
  {
    assert trace[n - 1].now <= trace[n].now;
    LiveSessionStays(issuedTo, states, trace, i, n);
    RepliesInPlainTerms(issuedTo, states, trace, n);
    assert StepAt(issuedTo, states, trace, n);
  }
}
