/**
 The expiry monitor: on each tick it reads the session's expiry and the seconds left, and
 returns the warning thresholds crossed since it last saw a different expiry. Zero stands for
 an expired session. A session is known to the monitor by its expiry timestamp alone.
 */
module ExpiryMonitor {
  import opened Options
  import AgentState

  const WARN_THRESHOLDS_SECS: seq<nat> := [1800, 300]

  /** The expiry and remaining seconds, read under one lock; both are absent without a session. */
  function SessionExpiryInfo(slot: Option<AgentState.SessionSlot>, now: AgentState.Time)
    : (Option<AgentState.Time>, Option<nat>)
  {
    if slot.None? then (None, None)
    else (Some(slot.value.session.expiresAt), Some(slot.value.session.ExpiresInSeconds(now)))
  }

  datatype Memory = Memory(tracked: Option<AgentState.Time>, fired: seq<nat>)

  /** Thresholds of `ts` that `remaining` has reached and that are not yet in `fired`. */
  function Crossed(ts: seq<nat>, remaining: nat, fired: seq<nat>): seq<nat> {
    if ts == [] then []
    else if remaining <= ts[0] && ts[0] !in fired then [ts[0]] + Crossed(ts[1..], remaining, fired + [ts[0]])
    else Crossed(ts[1..], remaining, fired)
  }

  /** The warnings that `remaining` calls for and that are not yet in `fired`. */
  function NewWarnings(remaining: nat, fired: seq<nat>): seq<nat> {
    (if remaining <= 1800 && 1800 !in fired then [1800] else [])
    + (if remaining <= 300 && 300 !in fired then [300] else [])
  }

  function FiredNow(m: Memory, expiry: Option<AgentState.Time>, remaining: Option<nat>): seq<nat> {
    var fired := if expiry != m.tracked then [] else m.fired;
    if remaining.None? then []
    else if remaining.value == 0 then if 0 in fired then [] else [0]
    else NewWarnings(remaining.value, fired)
  }

  function After(m: Memory, expiry: Option<AgentState.Time>, remaining: Option<nat>): Memory {
    Memory(expiry, (if expiry != m.tracked then [] else m.fired) + FiredNow(m, expiry, remaining))
  }

  class Monitor {
    var trackedSession: Option<AgentState.Time>
    var firedThresholds: seq<nat>

    constructor ()
      ensures trackedSession == None && firedThresholds == []
    {
      trackedSession, firedThresholds := None, [];
    }

    function Recall(): Memory
      reads this
    {
      Memory(trackedSession, firedThresholds)
    }

    method ThresholdsToFire(expiry: Option<AgentState.Time>, remaining: Option<nat>) returns (firedNow: seq<nat>)
      modifies this
      ensures firedNow == FiredNow(old(Recall()), expiry, remaining)
      ensures Recall() == After(old(Recall()), expiry, remaining)
    {
      if expiry != trackedSession {
        trackedSession := expiry;
        firedThresholds := [];
      }
      if remaining.None? {
        return [];
      }
      firedNow := [];
      if remaining.value == 0 {
        if 0 !in firedThresholds {
          firedThresholds := firedThresholds + [0];
          firedNow := firedNow + [0];
        }
        return;
      }
      CrossedThresholds(remaining.value, firedThresholds);
      firedNow := FireCrossed(WARN_THRESHOLDS_SECS, remaining.value);
    }

    /** The loop over the thresholds. */
    method FireCrossed(thresholds: seq<nat>, remaining: nat) returns (firedNow: seq<nat>)
      modifies this`firedThresholds
      ensures firedNow == Crossed(thresholds, remaining, old(firedThresholds))
      ensures firedThresholds == old(firedThresholds) + firedNow
    {
      firedNow := [];
      var i := 0;
      while i < |thresholds|
        invariant i <= |thresholds|
        invariant firedThresholds == old(firedThresholds) + firedNow
        invariant firedNow + Crossed(thresholds[i..], remaining, firedThresholds)
                  == Crossed(thresholds, remaining, old(firedThresholds))
      {
        var threshold := thresholds[i];
        assert thresholds[i..][1..] == thresholds[i + 1..];
        if remaining <= threshold && threshold !in firedThresholds {
          firedThresholds := firedThresholds + [threshold];
          firedNow := firedNow + [threshold];
        }
        i := i + 1;
      }
    }
  }

  // ---------------------------------------------------------------------
  // Whole runs
  // ---------------------------------------------------------------------

  /** What one tick sees: the clock and the slot. */
  datatype Tick = Tick(now: AgentState.Time, slot: Option<AgentState.SessionSlot>) {
    function Expiry(): Option<AgentState.Time> {
      SessionExpiryInfo(slot, now).0
    }

    function Remaining(): Option<nat> {
      SessionExpiryInfo(slot, now).1
    }
  }

  ghost predicate ClockRuns(ticks: seq<Tick>) {
    forall i, j :: 0 <= i <= j < |ticks| ==> ticks[i].now <= ticks[j].now
  }

  /** The monitor after the first `n` ticks. */
  function Run(ticks: seq<Tick>, n: nat): Memory
    requires n <= |ticks|
  {
    if n == 0 then Memory(None, [])
    else After(Run(ticks, n - 1), ticks[n - 1].Expiry(), ticks[n - 1].Remaining())
  }

  /** Everything fired by ticks `from` up to `to`, in order. */
  function Fired(ticks: seq<Tick>, from: nat, to: nat): seq<nat>
    requires from <= to <= |ticks|
  {
    if from == to then []
    else Fired(ticks, from, to - 1)
         + FiredNow(Run(ticks, to - 1), ticks[to - 1].Expiry(), ticks[to - 1].Remaining())
  }

  /** Ticks `from` up to `to` all see the session expiring at `expiry`, and the tick before `from` does not. */
  ghost predicate OneSession(ticks: seq<Tick>, from: nat, to: nat, expiry: AgentState.Time) {
    && from <= to <= |ticks|
    && (forall i :: from <= i < to ==> ticks[i].Expiry() == Some(expiry))
    && (from > 0 ==> ticks[from - 1].Expiry() != Some(expiry))
  }

  /** The least positive number of seconds left seen by those ticks. */
  function LeastPositive(ticks: seq<Tick>, from: nat, to: nat): Option<nat>
    requires from <= to <= |ticks|
  {
    if from == to then None
    else if ticks[to - 1].Remaining().Some? && ticks[to - 1].Remaining().value > 0 then ticks[to - 1].Remaining()
    else LeastPositive(ticks, from, to - 1)
  }

  function WarningsFor(remaining: nat): seq<nat> {
    if remaining <= 300 then [1800, 300] else if remaining <= 1800 then [1800] else []
  }

  /** One session's warnings for the least time seen, then its expiry. */
  function Tally(least: Option<nat>, expired: bool): seq<nat> {
    (if least.Some? then WarningsFor(least.value) else []) + (if expired then [0] else [])
  }

  /** What one session should have produced over those ticks. */
  function Expected(ticks: seq<Tick>, from: nat, to: nat): seq<nat>
    requires from <= to <= |ticks|
  {
    Tally(LeastPositive(ticks, from, to), from < to && ticks[to - 1].Remaining() == Some(0))
  }

  /** The loop over the thresholds finds exactly the new warnings. */
  lemma CrossedThresholds(remaining: nat, fired: seq<nat>)
    ensures Crossed(WARN_THRESHOLDS_SECS, remaining, fired) == NewWarnings(remaining, fired)
  {
    var fired' := if remaining <= 1800 && 1800 !in fired then fired + [1800] else fired;
    assert WARN_THRESHOLDS_SECS[1..] == [300];
    assert [300][1..] == [];
    assert Crossed([300], remaining, fired') == if remaining <= 300 && 300 !in fired' then [300] else [];
  }

  lemma TickExtendsTally(fired: seq<nat>, least: Option<nat>, expired: bool, expiry: Option<AgentState.Time>,
                         remaining: nat)
    requires fired == Tally(least, expired)
    requires least.Some? ==> 0 < least.value && remaining <= least.value
    requires expired ==> remaining == 0
    ensures fired + FiredNow(Memory(expiry, fired), expiry, Some(remaining))
            == Tally(if remaining > 0 then Some(remaining) else least, remaining == 0)
  {
  }

  lemma TallyIsDecreasing(least: Option<nat>, expired: bool)
    ensures StrictlyDecreasing(Tally(least, expired))
    ensures forall x :: x in Tally(least, expired) ==> x in [1800, 300, 0]
    ensures least.Some? ==> forall w :: w in WARN_THRESHOLDS_SECS ==> (w in Tally(least, expired) <==> w >= least.value)
    ensures expired <==> 0 in Tally(least, expired)
  {
  }

  lemma RemainingFalls(ticks: seq<Tick>, from: nat, i: nat, j: nat, to: nat, expiry: AgentState.Time)
    requires ClockRuns(ticks) && OneSession(ticks, from, to, expiry) && from <= i <= j < to
    ensures ticks[j].Remaining().value <= ticks[i].Remaining().value
  {
    assert ticks[i].now <= ticks[j].now;
    assert ticks[i].Expiry() == ticks[j].Expiry() == Some(expiry);
  }

  lemma {:induction false} LeastPositiveIsEarlier(
    ticks: seq<Tick>, from: nat, to: nat, n: nat, expiry: AgentState.Time)
    requires ClockRuns(ticks) && OneSession(ticks, from, n, expiry) && from <= to < n
    ensures LeastPositive(ticks, from, to).Some? ==>
              && 0 < LeastPositive(ticks, from, to).value
              && ticks[to].Remaining().value <= LeastPositive(ticks, from, to).value
  {
    if from < to {
      RemainingFalls(ticks, from, to - 1, to, n, expiry);
      assert ticks[to - 1].Expiry() == Some(expiry);
      LeastPositiveIsEarlier(ticks, from, to - 1, n, expiry);
      assert ticks[to].Expiry() == Some(expiry);
    }
  }

  lemma FirstTickOfSession(ticks: seq<Tick>, n: nat, expiry: AgentState.Time)
    requires n < |ticks| && OneSession(ticks, n, n + 1, expiry)
    ensures Fired(ticks, n, n + 1) == Expected(ticks, n, n + 1)
    ensures Run(ticks, n + 1) == Memory(Some(expiry), Expected(ticks, n, n + 1))
  {
    var t := ticks[n];
    assert t.Expiry() == Some(expiry);
    TrackedIsLastExpiry(ticks, n);
    var fired := FiredNow(Run(ticks, n), t.Expiry(), t.Remaining());
    assert fired == FiredNow(Memory(Some(expiry), []), Some(expiry), t.Remaining());
    TickExtendsTally([], None, false, Some(expiry), t.Remaining().value);
    var r := t.Remaining().value;
    assert LeastPositive(ticks, n, n) == None;
    assert LeastPositive(ticks, n, n + 1) == if r > 0 then Some(r) else None;
    assert Expected(ticks, n, n + 1) == Tally(if r > 0 then Some(r) else None, r == 0);
    assert fired == Expected(ticks, n, n + 1);
    assert Fired(ticks, n, n) == [];
    assert Fired(ticks, n, n + 1) == Fired(ticks, n, n) + fired;
  }

  lemma TimeLeftNeverGrows(ticks: seq<Tick>, from: nat, n: nat, expiry: AgentState.Time)
    requires ClockRuns(ticks) && n < |ticks| && OneSession(ticks, from, n + 1, expiry) && from < n
    ensures var least := LeastPositive(ticks, from, n);
            least.Some? ==> 0 < least.value && ticks[n].Remaining().value <= least.value
    ensures ticks[n - 1].Remaining() == Some(0) ==> ticks[n].Remaining() == Some(0)
  {
    LeastPositiveIsEarlier(ticks, from, n, n + 1, expiry);
    RemainingFalls(ticks, from, n - 1, n, n + 1, expiry);
  }

  lemma LaterTickOfSession(ticks: seq<Tick>, from: nat, n: nat, expiry: AgentState.Time)
    requires n < |ticks| && from < n && ticks[n].Expiry() == Some(expiry)
    requires var least := LeastPositive(ticks, from, n);
             least.Some? ==> 0 < least.value && ticks[n].Remaining().value <= least.value
    requires ticks[n - 1].Remaining() == Some(0) ==> ticks[n].Remaining() == Some(0)
    requires Fired(ticks, from, n) == Expected(ticks, from, n)
    requires Run(ticks, n) == Memory(Some(expiry), Expected(ticks, from, n))
    ensures Fired(ticks, from, n + 1) == Expected(ticks, from, n + 1)
    ensures Run(ticks, n + 1) == Memory(Some(expiry), Expected(ticks, from, n + 1))
  {
    var m, r, least := Run(ticks, n), ticks[n].Remaining().value, LeastPositive(ticks, from, n);
    TickExtendsTally(m.fired, least, ticks[n - 1].Remaining() == Some(0), Some(expiry), r);
    assert LeastPositive(ticks, from, n + 1) == if r > 0 then Some(r) else least;
    assert Expected(ticks, from, n + 1) == Tally(if r > 0 then Some(r) else least, r == 0);
    assert Fired(ticks, from, n + 1) == Fired(ticks, from, n) + FiredNow(m, Some(expiry), Some(r));
  }

  lemma NextTickOfSession(ticks: seq<Tick>, from: nat, n: nat, expiry: AgentState.Time)
    requires ClockRuns(ticks) && n < |ticks| && OneSession(ticks, from, n + 1, expiry) && from < n
    requires Fired(ticks, from, n) == Expected(ticks, from, n)
    requires Run(ticks, n) == Memory(Some(expiry), Expected(ticks, from, n))
    ensures Fired(ticks, from, n + 1) == Expected(ticks, from, n + 1)
    ensures Run(ticks, n + 1) == Memory(Some(expiry), Expected(ticks, from, n + 1))
  {
    TimeLeftNeverGrows(ticks, from, n, expiry);
    assert ticks[n].Expiry() == Some(expiry);
    LaterTickOfSession(ticks, from, n, expiry);
  }

  /**
   Over any run, what was fired for the current session is exactly its warnings for the least time seen
   and then its expiry, each once, and the monitor remembers exactly that.
   */
  lemma {:induction false} FiresEachThresholdOnce(ticks: seq<Tick>, from: nat, to: nat, expiry: AgentState.Time)
    requires ClockRuns(ticks) && OneSession(ticks, from, to, expiry) && from < to
    ensures Fired(ticks, from, to) == Expected(ticks, from, to)
    ensures Run(ticks, to) == Memory(Some(expiry), Expected(ticks, from, to))
  {
    if from == to - 1 {
      FirstTickOfSession(ticks, from, expiry);
    } else {
      FiresEachThresholdOnce(ticks, from, to - 1, expiry);
      NextTickOfSession(ticks, from, to - 1, expiry);
    }
  }

  lemma TrackedIsLastExpiry(ticks: seq<Tick>, n: nat)
    requires n <= |ticks|
    ensures Run(ticks, n).tracked == if n == 0 then None else ticks[n - 1].Expiry()
    ensures n > 0 && ticks[n - 1].Expiry().None? ==> Run(ticks, n).fired == []
  {
  }

  predicate StrictlyDecreasing(s: seq<nat>) {
    forall i, j :: 0 <= i < j < |s| ==> s[i] > s[j]
  }

  /** Nothing fires twice, and after a tick with time left every threshold at or above it has fired. */
  lemma FiredIsDecreasing(ticks: seq<Tick>, from: nat, to: nat, expiry: AgentState.Time)
    requires ClockRuns(ticks) && OneSession(ticks, from, to, expiry) && from < to
    ensures StrictlyDecreasing(Fired(ticks, from, to))
    ensures forall x :: x in Fired(ticks, from, to) ==> x in [1800, 300, 0]
    ensures ticks[to - 1].Remaining().Some?
    ensures forall w :: w in WARN_THRESHOLDS_SECS && 0 < ticks[to - 1].Remaining().value ==>
              (w in Fired(ticks, from, to) <==> w >= ticks[to - 1].Remaining().value)
    ensures ticks[to - 1].Remaining().value == 0 <==> 0 in Fired(ticks, from, to)
  {
    FiresEachThresholdOnce(ticks, from, to, expiry);
    assert ticks[to - 1].Expiry() == Some(expiry);
    TallyIsDecreasing(LeastPositive(ticks, from, to), ticks[to - 1].Remaining() == Some(0));
  }

  predicate Sees(t: Tick, expiry: AgentState.Time) {
    t.slot.Some? && t.slot.value.session.expiresAt == expiry
  }

  lemma RemainingInNanos(t: Tick, expiry: AgentState.Time)
    requires Sees(t, expiry)
    ensures t.Remaining().Some?
    ensures t.Remaining().value == 0 <==> expiry - t.now < 1_000_000_000
    ensures 0 < t.Remaining().value ==>
              && (t.Remaining().value <= 1800 <==> expiry - t.now < 1801 * 1_000_000_000)
              && (t.Remaining().value <= 300 <==> expiry - t.now < 301 * 1_000_000_000)
  {
  }

  /**
   In clock readings: over the ticks that see one expiry, the half-hour warning has come exactly if less than 1801
   seconds are left, the five-minute one if less than 301, the expiry if less than one, and none comes twice.
   */
  lemma FiredInPlainTimes(ticks: seq<Tick>, from: nat, to: nat, expiry: AgentState.Time)
    requires ClockRuns(ticks) && from < to <= |ticks|
    requires forall i :: from <= i < to ==> Sees(ticks[i], expiry)
    requires from > 0 ==> !Sees(ticks[from - 1], expiry)
    ensures var fired, left := Fired(ticks, from, to), expiry - ticks[to - 1].now;
            && StrictlyDecreasing(fired) && (forall x :: x in fired ==> x in [1800, 300, 0])
            && (0 in fired <==> left < 1_000_000_000)
            && (left >= 1_000_000_000 ==> (1800 in fired <==> left < 1801 * 1_000_000_000))
            && (left >= 1_000_000_000 ==> (300 in fired <==> left < 301 * 1_000_000_000))
  {
    assert OneSession(ticks, from, to, expiry) by {
      forall i | from <= i < to ensures ticks[i].Expiry() == Some(expiry) {
        assert Sees(ticks[i], expiry);
      }
    }
    FiredIsDecreasing(ticks, from, to, expiry);
    assert Sees(ticks[to - 1], expiry);
    RemainingInNanos(ticks[to - 1], expiry);
    assert 1800 in WARN_THRESHOLDS_SECS && 300 in WARN_THRESHOLDS_SECS;
  }

  /** A tick that sees another expiry starts afresh: it fires just what a new monitor would. */
  lemma NewExpiryRearms(ticks: seq<Tick>, n: nat)
    requires n < |ticks|
    requires n > 0 ==> ticks[n].Expiry() != ticks[n - 1].Expiry()
    ensures FiredNow(Run(ticks, n), ticks[n].Expiry(), ticks[n].Remaining())
            == FiredNow(Memory(None, []), ticks[n].Expiry(), ticks[n].Remaining())
  {
    TrackedIsLastExpiry(ticks, n);
  }
}
