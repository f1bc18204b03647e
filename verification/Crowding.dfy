/** A run that crowds the cache: a login, then 129 accepted inserts of different keys, none of them expired. */
module Crowding {
  import opened Options
  import opened AgentState

  const SESSION := Session("token", "user@example.com", 1, 0)
  const CREDENTIAL := CachedCredential("data", 1, 0)

  /** Keys that differ in length. */
  function FillKey(i: nat): string {
    seq(i, _ => 'k')
  }

  function FillKeys(n: nat): set<string> {
    set i | 0 <= i < n :: FillKey(i)
  }

  function FillCache(n: nat): Cache {
    map k | k in FillKeys(n) :: CREDENTIAL
  }

  function FillSlot(n: nat): Option<SessionSlot> {
    Some(FreshSlot(SESSION, None).(cache := FillCache(n)))
  }

  function FillRecord(i: nat): Record {
    Record(0, CacheCredential(FillKey(i), CREDENTIAL), Done)
  }

  function FillTrace(n: nat): seq<Record> {
    [Record(0, StoreSession(SESSION, None), Stored(true))] + seq(n, i requires 0 <= i => FillRecord(i))
  }

  function FillStates(n: nat): seq<Option<SessionSlot>> {
    [None] + seq(n + 1, i requires 0 <= i => FillSlot(i))
  }

  lemma FillKeysGrow(n: nat)
    ensures FillKeys(n + 1) == FillKeys(n) + {FillKey(n)} && FillKey(n) !in FillKeys(n)
    ensures FillCache(n + 1) == FillCache(n)[FillKey(n) := CREDENTIAL]
  {
    assert forall i :: 0 <= i < n ==> |FillKey(i)| != |FillKey(n)|;
  }

  lemma {:induction false} FillCacheSize(n: nat)
    ensures |FillCache(n)| == n
  {
    assert FillCache(n).Keys == FillKeys(n);
    if n > 0 {
      FillCacheSize(n - 1);
      FillKeysGrow(n - 1);
      assert FillCache(n - 1).Keys == FillKeys(n - 1);
    }
  }

  lemma FillKeyFits(i: nat)
    requires i <= MAX_CREDENTIAL_TYPE_LEN
    ensures Utf8Len(FillKey(i)) <= MAX_CREDENTIAL_TYPE_LEN
  {
    Utf8LenBounds(FillKey(i));
  }

  lemma FillSteps(issuedTo: Issuer, n: nat)
    requires n < MAX_CACHE_ENTRIES
    ensures Step(issuedTo, FillSlot(n), 0, FillRecord(n).op, Done, FillSlot(n + 1))
    ensures ApplyUnbounded(issuedTo, FillSlot(n), 0, FillRecord(n).op).0 == FillSlot(n + 1)
  {
    FillKeyFits(n);
    FillKeysGrow(n);
    FillCacheSize(n);
  }

  lemma FillIsRun(issuedTo: Issuer, n: nat)
    requires n <= MAX_CACHE_ENTRIES
    ensures IsRun(issuedTo, FillStates(n), FillTrace(n))
  {
    var states, trace := FillStates(n), FillTrace(n);
    forall i | 0 <= i < |trace| ensures StepAt(issuedTo, states, trace, i) {
      if i == 0 {
        assert states[1] == FillSlot(0);
        assert FillCache(0) == map[];
      } else {
        FillSteps(issuedTo, i - 1);
        assert states[i] == FillSlot(i - 1) && states[i + 1] == FillSlot(i) && trace[i] == FillRecord(i - 1);
      }
    }
  }

  /** While nothing is evicted the ideal map is the cache. */
  lemma {:induction false} FillIdeal(issuedTo: Issuer, trace: seq<Record>, n: nat)
    requires n <= MAX_CACHE_ENTRIES && n < |trace| && trace[..n + 1] == FillTrace(n)
    ensures Ideal(issuedTo, trace, n + 1) == FillSlot(n)
  {
    assert trace[n] == FillTrace(n)[n];
    if n == 0 {
      assert Ideal(issuedTo, trace, 0) == None;
      assert FillCache(0) == map[];
    } else {
      assert trace[..n] == FillTrace(n)[..n] == FillTrace(n - 1);
      FillIdeal(issuedTo, trace, n - 1);
      FillSteps(issuedTo, n - 1);
    }
  }

  /** The slot after one insert more into a full cache, which gives up its first entry. */
  function OverfullSlot(n: nat): Option<SessionSlot> {
    Some(FillSlot(n).value.(cache := (FillCache(n) - {FillKey(0)})[FillKey(n) := CREDENTIAL]))
  }

  lemma OverfullSteps(issuedTo: Issuer, n: nat)
    requires n == MAX_CACHE_ENTRIES
    ensures Step(issuedTo, FillSlot(n), 0, FillRecord(n).op, Done, OverfullSlot(n))
  {
    FillKeyFits(n);
    FillKeysGrow(n);
    FillCacheSize(n);
    assert FillKey(0) in FillKeys(n);
    assert IsVictim(FillCache(n), 0, FillKey(0));
  }

  lemma OverfullExtends(issuedTo: Issuer, n: nat, states: seq<Option<SessionSlot>>, trace: seq<Record>)
    requires n == MAX_CACHE_ENTRIES && IsRun(issuedTo, states, trace)
    requires trace != [] && trace[|trace| - 1].now == 0 && states[|trace|] == FillSlot(n)
    ensures IsRun(issuedTo, states + [OverfullSlot(n)], trace + [FillRecord(n)])
  {
    OverfullSteps(issuedTo, n);
    RunExtends(issuedTo, states, trace, FillRecord(n), OverfullSlot(n));
  }

  lemma OverfullIsRun(issuedTo: Issuer, n: nat)
    requires n == MAX_CACHE_ENTRIES
    ensures IsRun(issuedTo, FillStates(n) + [OverfullSlot(n)], FillTrace(n) + [FillRecord(n)])
  {
    FillIsRun(issuedTo, n);
    assert FillTrace(n)[n] == FillRecord(n - 1) && FillStates(n)[n + 1] == FillSlot(n);
    OverfullExtends(issuedTo, n, FillStates(n), FillTrace(n));
  }

  lemma OverfullCrowds(issuedTo: Issuer, n: nat)
    requires n == MAX_CACHE_ENTRIES
    ensures CrowdedAt(issuedTo, FillTrace(n) + [FillRecord(n)], n + 1)
  {
    var trace := FillTrace(n) + [FillRecord(n)];
    assert trace[..n + 1] == FillTrace(n);
    FillIdeal(issuedTo, trace, n);
    FillKeyFits(n);
    FillKeysGrow(n);
    FillCacheSize(n);
    assert LiveKeys(FillCache(n), 0) - {FillKey(n)} == FillCache(n).Keys;
  }

  lemma OverfullRun(issuedTo: Issuer, n: nat) returns (states: seq<Option<SessionSlot>>, trace: seq<Record>)
    requires n == MAX_CACHE_ENTRIES
    ensures IsRun(issuedTo, states, trace) && |trace| == n + 2
    ensures forall i :: 1 <= i < n + 2 ==> trace[i].op.CacheCredential? && trace[i].reply == Done
    ensures CrowdedAt(issuedTo, trace, n + 1)
  {
    states, trace := FillStates(n) + [OverfullSlot(n)], FillTrace(n) + [FillRecord(n)];
    OverfullIsRun(issuedTo, n);
    OverfullCrowds(issuedTo, n);
  }

  /** A login and 129 accepted inserts: the last one evicts, and the run is not transparent. */
  lemma CrowdedRun(issuedTo: Issuer) returns (states: seq<Option<SessionSlot>>, trace: seq<Record>)
    ensures IsRun(issuedTo, states, trace) && |trace| == 130
    ensures forall i :: 1 <= i < 130 ==> trace[i].op.CacheCredential? && trace[i].reply == Done
    ensures CrowdedAt(issuedTo, trace, 129) && !Transparent(issuedTo, states, trace)
  {
    states, trace := OverfullRun(issuedTo, 128);
    TransparentIffNeverCrowded(issuedTo, states, trace);
  }
}
