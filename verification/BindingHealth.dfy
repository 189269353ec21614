/**
 Quarantine and recovery of a model binding (src/runtime/binding-health.ts): the monitor's loop over
 the observations, and what its verdict says about the whole observation sequence.
 */
module BindingHealth {
  import opened Prelude
  import opened Sorting

  datatype Outcome =
    | Accepted | CanaryAccepted | ValidationFailed | ReviewRejected | InvalidOutput | BudgetExceeded
    | ProviderUnavailable | AuthorityViolation | FalseAcceptance

  datatype Observation = Observation(id: string, scope: string, at: int, outcome: Outcome)

  datatype Policy = Policy(windowSize: nat, minimum: nat, maxRate: nat, maxConsecutive: nat, cooldown: nat, canaries: nat)

  predicate ValidPolicy(p: Policy) {
    && 1 <= p.windowSize <= 1000 && 1 <= p.minimum <= p.windowSize && 1 <= p.maxRate <= 10000
    && 1 <= p.maxConsecutive <= p.windowSize && 1 <= p.cooldown <= 2592000 && 1 <= p.canaries <= 100
  }

  predicate Failed(o: Observation) { !o.outcome.Accepted? && !o.outcome.CanaryAccepted? }
  predicate Critical(o: Observation) { o.outcome.AuthorityViolation? || o.outcome.FalseAcceptance? }

  datatype Status = Healthy | Quarantined | Probation

  /** The variables of the loop. */
  datatype Monitor = Monitor(status: Status, triggeredAt: Option<int>, canaries: nat, recent: seq<Observation>, failures: nat)

  const Fresh := Monitor(Healthy, None, 0, [], 0)

  function Last(s: seq<Observation>, n: nat): seq<Observation> { if |s| <= n then s else s[|s| - n..] }

  function FailureCount(s: seq<Observation>): nat {
    if s == [] then 0 else FailureCount(s[..|s| - 1]) + if Failed(s[|s| - 1]) then 1 else 0
  }

  /** Basis points, rounded half up. */
  function FailureRate(s: seq<Observation>): nat {
    if s == [] then 0 else (2 * FailureCount(s) * 10000 + |s|) / (2 * |s|)
  }

  function WhenHealthy(p: Policy, m: Monitor, o: Observation): Monitor {
    var recent := if o.outcome.CanaryAccepted? then m.recent else Last(m.recent + [o], p.windowSize);
    var failures := if Failed(o) then m.failures + 1 else 0;
    if Critical(o) || failures >= p.maxConsecutive || (|recent| >= p.minimum && FailureRate(recent) > p.maxRate)
    then Monitor(Quarantined, Some(o.at), 0, recent, failures)
    else m.(recent := recent, failures := failures)
  }

  function WhenSick(p: Policy, m: Monitor, o: Observation): Monitor
    requires m.triggeredAt.Some?
  {
    if Failed(o) then m.(status := Quarantined, triggeredAt := Some(o.at), canaries := 0, failures := m.failures + 1)
    else if o.outcome.CanaryAccepted? && o.at >= m.triggeredAt.value + p.cooldown * 1000 then
      if m.canaries + 1 >= p.canaries then Monitor(Healthy, None, m.canaries + 1, [], 0)
      else m.(status := Probation, canaries := m.canaries + 1)
    else m
  }

  predicate Coherent(m: Monitor) { m.status != Healthy ==> m.triggeredAt.Some? }

  function Step(p: Policy, m: Monitor, o: Observation): (r: Monitor)
    requires Coherent(m)
    ensures Coherent(r)
  {
    if m.status == Healthy then WhenHealthy(p, m, o) else WhenSick(p, m, o)
  }

  /** The monitor after the first `k` observations. */
  function Run(p: Policy, obs: seq<Observation>, k: nat): (m: Monitor)
    requires k <= |obs|
    ensures Coherent(m)
  {
    if k == 0 then Fresh else Step(p, Run(p, obs, k - 1), obs[k - 1])
  }

  // ---- What the verdict is about -----------------------------------------------------

  function Normal(s: seq<Observation>): seq<Observation> {
    if s == [] then []
    else Normal(s[..|s| - 1]) + if s[|s| - 1].outcome.CanaryAccepted? then [] else [s[|s| - 1]]
  }

  /** The last `windowSize` observations that are not canaries. */
  function Window(p: Policy, s: seq<Observation>): seq<Observation> { Last(Normal(s), p.windowSize) }

  /** How many failures in a row end the sequence. */
  function Trailing(s: seq<Observation>): nat {
    if s == [] || !Failed(s[|s| - 1]) then 0 else Trailing(s[..|s| - 1]) + 1
  }

  /** The last observation of the stretch calls for quarantine. */
  predicate Trips(p: Policy, s: seq<Observation>)
    requires s != []
  {
    || Critical(s[|s| - 1])
    || Trailing(s) >= p.maxConsecutive
    || (|Window(p, s)| >= p.minimum && FailureRate(Window(p, s)) > p.maxRate)
  }

  /** No observation of the stretch called for quarantine when it came. */
  predicate Clean(p: Policy, s: seq<Observation>) {
    forall k | 0 < k <= |s| :: !Trips(p, s[..k])
  }

  /** The last observation before `k` that failed, or `t` itself. */
  function LastBad(obs: seq<Observation>, t: nat, k: nat): (z: nat)
    requires t < k <= |obs|
    ensures t <= z < k && (z == t || Failed(obs[z])) && forall j | z < j < k :: !Failed(obs[j])
  {
    if k - 1 == t || Failed(obs[k - 1]) then k - 1 else LastBad(obs, t, k - 1)
  }

  predicate Qualifies(p: Policy, obs: seq<Observation>, z: nat, j: nat)
    requires z < |obs| && j < |obs|
  {
    obs[j].outcome.CanaryAccepted? && obs[j].at >= obs[z].at + p.cooldown * 1000
  }

  /** The accepted canaries after `z` that came at least the cooldown after it. */
  function Canaries(p: Policy, obs: seq<Observation>, z: nat, k: nat): set<nat>
    requires z < k <= |obs|
  {
    set j: nat | z < j < k && Qualifies(p, obs, z, j)
  }

  /** Quarantined at `t`, the binding has earned its canaries with the observation just before `r`. */
  predicate RecoveryAt(p: Policy, obs: seq<Observation>, t: nat, r: nat)
    requires t < r <= |obs|
  {
    && r - 1 > t && Qualifies(p, obs, LastBad(obs, t, r), r - 1)
    && |Canaries(p, obs, LastBad(obs, t, r), r)| >= p.canaries
  }

  /** Position `a` is the start, or where a quarantine that began at `t` first ended. */
  ghost predicate HealthyStart(p: Policy, obs: seq<Observation>, a: nat)
    requires a <= |obs|
    decreases a
  {
    a == 0 || exists b: nat, t: nat | b <= t < a :: HealthyStart(p, obs, b) && Spell(p, obs, b, t) && FirstRecovery(p, obs, t, a)
  }

  /** Healthy from `b`, quarantined by observation `t`. */
  predicate Spell(p: Policy, obs: seq<Observation>, b: nat, t: nat)
    requires b <= t < |obs|
  {
    Clean(p, obs[b..t]) && Trips(p, obs[b..t + 1])
  }

  predicate Unrecovered(p: Policy, obs: seq<Observation>, t: nat, k: nat)
    requires t < k <= |obs|
  {
    forall r | t < r <= k :: !RecoveryAt(p, obs, t, r)
  }

  predicate FirstRecovery(p: Policy, obs: seq<Observation>, t: nat, r: nat)
    requires t < r <= |obs|
  {
    RecoveryAt(p, obs, t, r) && (r - 1 > t ==> Unrecovered(p, obs, t, r - 1))
  }

  // ---- The loop tracks it ------------------------------------------------------------

  /** Healthy since `a`: the variables describe the stretch from there. */
  ghost predicate TracksClean(p: Policy, m: Monitor, s: seq<Observation>) {
    m.status == Healthy && m.recent == Window(p, s) && m.failures == Trailing(s)
  }

  /** The loop starts over at `a`. */
  predicate FreshAt(p: Policy, obs: seq<Observation>, a: nat)
    requires a <= |obs|
  {
    var m := Run(p, obs, a);
    m.status == Healthy && m.recent == [] && m.failures == 0
  }

  lemma RunStep(p: Policy, obs: seq<Observation>, k: nat)
    requires 0 < k <= |obs|
    ensures Run(p, obs, k) == Step(p, Run(p, obs, k - 1), obs[k - 1])
  {
  }

  lemma Stretch(obs: seq<Observation>, a: nat, k: nat)
    requires a < k <= |obs|
    ensures obs[a..k] == obs[a..k - 1] + [obs[k - 1]]
  {
  }

  /** Sick since `t`: the variables describe the last failure and the canaries after it. */
  ghost predicate TracksSick(p: Policy, m: Monitor, obs: seq<Observation>, t: nat, k: nat)
    requires t < k <= |obs|
  {
    var z := LastBad(obs, t, k);
    && m.status != Healthy && m.triggeredAt == Some(obs[z].at) && m.canaries == |Canaries(p, obs, z, k)|
    && (m.status == Probation <==> m.canaries > 0) && m.canaries < p.canaries
  }

  lemma HealthyStep(p: Policy, m: Monitor, s: seq<Observation>, o: Observation)
    requires ValidPolicy(p) && TracksClean(p, m, s)
    ensures !Trips(p, s + [o]) ==> TracksClean(p, Step(p, m, o), s + [o])
    ensures Trips(p, s + [o]) ==>
              Step(p, m, o) == Monitor(Quarantined, Some(o.at), 0, Window(p, s + [o]), Trailing(s + [o]))
  {
    hide FailureRate, Normal, Trailing, Last;
    NormalGrows(s, o);
    TrailingGrows(s, o);
    LastGrows(Normal(s), o, p.windowSize);
    assert (s + [o])[|s + [o]| - 1] == o;
  }

  lemma NormalGrows(s: seq<Observation>, o: Observation)
    ensures Normal(s + [o]) == if o.outcome.CanaryAccepted? then Normal(s) else Normal(s) + [o]
  {
    assert (s + [o])[..|s|] == s;
  }

  lemma TrailingGrows(s: seq<Observation>, o: Observation)
    ensures Trailing(s + [o]) == if Failed(o) then Trailing(s) + 1 else 0
  {
    assert (s + [o])[..|s|] == s;
  }

  lemma LastGrows(s: seq<Observation>, o: Observation, n: nat)
    requires n >= 1
    ensures Last(Last(s, n) + [o], n) == Last(s + [o], n)
  {
  }

  lemma CleanGrows(p: Policy, obs: seq<Observation>, a: nat, k: nat)
    requires a < k <= |obs|
    ensures Clean(p, obs[a..k]) <==> Clean(p, obs[a..k - 1]) && !Trips(p, obs[a..k])
  {
    hide Trips;
    var s := obs[a..k];
    assert s[..|s|] == s;
    var r := obs[a..k - 1];
    assert forall j | 0 < j <= |r| :: s[..j] == r[..j];
    if Clean(p, s) {
      forall j | 0 < j <= |r| ensures !Trips(p, r[..j]) { assert !Trips(p, s[..j]); }
    }
  }

  lemma {:induction false} CleanTracked(p: Policy, obs: seq<Observation>, a: nat, k: nat)
    requires ValidPolicy(p) && a <= k <= |obs| && Clean(p, obs[a..k]) && FreshAt(p, obs, a)
    ensures TracksClean(p, Run(p, obs, k), obs[a..k])
  {
    if k > a {
      hide *;
      RunStep(p, obs, k);
      CleanGrows(p, obs, a, k);
      CleanTracked(p, obs, a, k - 1);
      Stretch(obs, a, k);
      HealthyStep(p, Run(p, obs, k - 1), obs[a..k - 1], obs[k - 1]);
    }
  }

  lemma CanariesGrow(p: Policy, obs: seq<Observation>, z: nat, k: nat)
    requires z < k < |obs|
    ensures Canaries(p, obs, z, k + 1) == Canaries(p, obs, z, k) + if Qualifies(p, obs, z, k) then {k} else {}
    ensures |Canaries(p, obs, z, k + 1)| == |Canaries(p, obs, z, k)| + if Qualifies(p, obs, z, k) then 1 else 0
  {
    assert Canaries(p, obs, z, k + 1) == Canaries(p, obs, z, k) + if Qualifies(p, obs, z, k) then {k} else {};
  }

  lemma SickStep(p: Policy, m: Monitor, obs: seq<Observation>, t: nat, k: nat)
    requires ValidPolicy(p) && t + 1 < k <= |obs| && TracksSick(p, m, obs, t, k - 1)
    ensures !RecoveryAt(p, obs, t, k) ==> TracksSick(p, Step(p, m, obs[k - 1]), obs, t, k)
    ensures RecoveryAt(p, obs, t, k) ==> Step(p, m, obs[k - 1]) == Fresh.(canaries := m.canaries + 1)
  {
    var z := LastBad(obs, t, k - 1);
    if Failed(obs[k - 1]) {
      assert Canaries(p, obs, k - 1, k) == {};
    } else {
      CanariesGrow(p, obs, z, k - 1);
    }
    hide Canaries;
  }

  lemma {:induction false} SickTracked(p: Policy, obs: seq<Observation>, t: nat, k: nat)
    requires ValidPolicy(p) && t < k <= |obs| && Unrecovered(p, obs, t, k)
    requires TracksSick(p, Run(p, obs, t + 1), obs, t, t + 1)
    ensures TracksSick(p, Run(p, obs, k), obs, t, k)
  {
    hide *;
    if k > t + 1 {
      UnrecoveredBefore(p, obs, t, k);
      RunStep(p, obs, k);
      SickTracked(p, obs, t, k - 1);
      SickStep(p, Run(p, obs, k - 1), obs, t, k);
    }
  }

  /** While sick, the window stays as it was and every failure is counted on top. */
  lemma {:induction false} SickFrozen(p: Policy, obs: seq<Observation>, t: nat, k: nat)
    requires ValidPolicy(p) && t < k <= |obs| && Unrecovered(p, obs, t, k)
    requires TracksSick(p, Run(p, obs, t + 1), obs, t, t + 1)
    ensures Run(p, obs, k).recent == Run(p, obs, t + 1).recent
    ensures Run(p, obs, k).failures == Run(p, obs, t + 1).failures + FailureCount(obs[t + 1..k])
  {
    hide *;
    if k > t + 1 {
      UnrecoveredBefore(p, obs, t, k);
      RunStep(p, obs, k);
      SickFrozen(p, obs, t, k - 1);
      SickTracked(p, obs, t, k - 1);
      FrozenStep(p, Run(p, obs, k - 1), obs, t, k);
      FailureCountGrows(obs, t + 1, k);
    } else {
      NoFailures(obs, k);
    }
  }

  lemma NoFailures(obs: seq<Observation>, k: nat)
    requires k <= |obs|
    ensures FailureCount(obs[k..k]) == 0
  {
  }

  lemma UnrecoveredBefore(p: Policy, obs: seq<Observation>, t: nat, k: nat)
    requires t + 1 < k <= |obs| && Unrecovered(p, obs, t, k)
    ensures Unrecovered(p, obs, t, k - 1) && !RecoveryAt(p, obs, t, k)
  {
    hide RecoveryAt;
  }

  lemma FrozenStep(p: Policy, m: Monitor, obs: seq<Observation>, t: nat, k: nat)
    requires ValidPolicy(p) && t + 1 < k <= |obs| && TracksSick(p, m, obs, t, k - 1) && !RecoveryAt(p, obs, t, k)
    ensures Step(p, m, obs[k - 1]).recent == m.recent
    ensures Step(p, m, obs[k - 1]).failures == m.failures + if Failed(obs[k - 1]) then 1 else 0
  {
    SickStep(p, m, obs, t, k);
  }

  lemma FailureCountGrows(obs: seq<Observation>, a: nat, k: nat)
    requires a < k <= |obs|
    ensures FailureCount(obs[a..k]) == FailureCount(obs[a..k - 1]) + if Failed(obs[k - 1]) then 1 else 0
  {
    assert obs[a..k][..k - 1 - a] == obs[a..k - 1];
  }

  lemma SpellTracked(p: Policy, obs: seq<Observation>, b: nat, t: nat)
    requires ValidPolicy(p) && b <= t < |obs| && Spell(p, obs, b, t) && FreshAt(p, obs, b)
    ensures TracksSick(p, Run(p, obs, t + 1), obs, t, t + 1)
    ensures Run(p, obs, t + 1).status == Quarantined
    ensures Run(p, obs, t + 1).recent == Window(p, obs[b..t + 1]) && Run(p, obs, t + 1).failures == Trailing(obs[b..t + 1])
  {
    hide Step, Trips, TracksClean, FreshAt, Clean, Qualifies;
    CleanTracked(p, obs, b, t);
    Stretch(obs, b, t + 1);
    HealthyStep(p, Run(p, obs, t), obs[b..t], obs[t]);
    assert Canaries(p, obs, t, t + 1) == {};
  }

  lemma RecoveryFresh(p: Policy, obs: seq<Observation>, t: nat, a: nat)
    requires ValidPolicy(p) && t < a <= |obs| && FirstRecovery(p, obs, t, a)
    requires TracksSick(p, Run(p, obs, t + 1), obs, t, t + 1)
    ensures a - 1 > t && TracksSick(p, Run(p, obs, a - 1), obs, t, a - 1) && FreshAt(p, obs, a)
  {
    hide Step, TracksSick;
    assert a - 1 > t;
    hide RecoveryAt;
    SickTracked(p, obs, t, a - 1);
    SickStep(p, Run(p, obs, a - 1), obs, t, a);
  }

  lemma {:induction false} StartTracked(p: Policy, obs: seq<Observation>, a: nat)
    requires ValidPolicy(p) && a <= |obs| && HealthyStart(p, obs, a)
    ensures FreshAt(p, obs, a)
    decreases a
  {
    if a > 0 {
      hide FirstRecovery, Spell, TracksSick, FreshAt, Run;
      var b: nat, t: nat :| b <= t < a && HealthyStart(p, obs, b) && Spell(p, obs, b, t) && FirstRecovery(p, obs, t, a);
      StartTracked(p, obs, b);
      SpellTracked(p, obs, b, t);
      RecoveryFresh(p, obs, t, a);
    }
  }

  /** Healthy since `b` at `k`, or sick since `t` after a spell from `b`. */
  ghost predicate Locates(p: Policy, obs: seq<Observation>, k: nat, b: nat, t: nat)
    requires k <= |obs|
  {
    && b <= k && HealthyStart(p, obs, b)
    && if Run(p, obs, k).status == Healthy then Clean(p, obs[b..k])
       else b <= t < k && Spell(p, obs, b, t) && Unrecovered(p, obs, t, k) && TracksSick(p, Run(p, obs, k), obs, t, k)
  }

  lemma LocateHealthy(p: Policy, obs: seq<Observation>, k: nat, b: nat) returns (t: nat)
    requires ValidPolicy(p) && k < |obs| && b <= k && HealthyStart(p, obs, b) && Clean(p, obs[b..k])
    ensures Locates(p, obs, k + 1, b, t)
  {
    hide Step, Trips, Run, FreshAt, RecoveryAt, TracksSick, HealthyStart, Clean;
    t := k;
    StartTracked(p, obs, b);
    CleanGrows(p, obs, b, k + 1);
    if Trips(p, obs[b..k + 1]) {
      SpellTracked(p, obs, b, k);
      NeverAtOnce(p, obs, k);
    } else {
      CleanTracked(p, obs, b, k + 1);
    }
  }

  lemma LocateSick(p: Policy, obs: seq<Observation>, k: nat, b: nat, t: nat) returns (now: nat)
    requires ValidPolicy(p) && b <= t < k < |obs| && HealthyStart(p, obs, b) && Spell(p, obs, b, t)
    requires Unrecovered(p, obs, t, k) && TracksSick(p, Run(p, obs, k), obs, t, k)
    ensures Locates(p, obs, k + 1, now, t)
  {
    hide Step, RecoveryAt, TracksSick, Spell;
    SickStep(p, Run(p, obs, k), obs, t, k + 1);
    SickHealthy(p, Run(p, obs, k + 1), obs, t, k + 1);
    if RecoveryAt(p, obs, t, k + 1) {
      assert FirstRecovery(p, obs, t, k + 1);
      now := k + 1;
      NothingYet(p, obs, k + 1);
    } else {
      now := b;
    }
  }

  lemma NothingYet(p: Policy, obs: seq<Observation>, k: nat)
    requires k <= |obs|
    ensures Clean(p, obs[k..k])
  {
  }

  /** Where the observations leave the binding. */
  lemma {:induction false} Located(p: Policy, obs: seq<Observation>, k: nat) returns (b: nat, t: nat)
    requires ValidPolicy(p) && k <= |obs|
    ensures Locates(p, obs, k, b, t)
    decreases k
  {
    hide RecoveryAt, TracksSick, Trips, Spell, Unrecovered;
    if k == 0 {
      b, t := 0, 0;
    } else {
      b, t := Located(p, obs, k - 1);
      hide Run, HealthyStart, Clean;
      if Run(p, obs, k - 1).status == Healthy {
        t := LocateHealthy(p, obs, k - 1, b);
      } else {
        b := LocateSick(p, obs, k - 1, b, t);
      }
    }
  }

  lemma NeverAtOnce(p: Policy, obs: seq<Observation>, t: nat)
    requires t < |obs|
    ensures !RecoveryAt(p, obs, t, t + 1)
  {
  }

  lemma SickHealthy(p: Policy, m: Monitor, obs: seq<Observation>, t: nat, k: nat)
    requires t < k <= |obs|
    ensures TracksSick(p, m, obs, t, k) ==> m.status != Healthy
  {
  }

  // ---- The verdict ---------------------------------------------------------------------

  /**
   The verdict is HEALTHY exactly when some start or recovery is followed by nothing that called for
   quarantine: no critical failure, never the maximum of failures in a row, and never a window of enough
   non-canary observations with too many failures.
   */
  lemma HealthyJustified(p: Policy, obs: seq<Observation>)
    requires ValidPolicy(p)
    ensures Run(p, obs, |obs|).status == Healthy <==>
              exists a: nat | a <= |obs| :: HealthyStart(p, obs, a) && Clean(p, obs[a..])
  {
    if Run(p, obs, |obs|).status == Healthy {
      var b, _ := Located(p, obs, |obs|);
      assert obs[b..|obs|] == obs[b..];
    }
    forall a: nat | a <= |obs| && HealthyStart(p, obs, a) && Clean(p, obs[a..])
      ensures Run(p, obs, |obs|).status == Healthy
    {
      StartTracked(p, obs, a);
      assert obs[a..|obs|] == obs[a..];
      CleanTracked(p, obs, a, |obs|);
    }
  }

  /** Failures end a stretch `n` times in a row exactly when its last `n` observations failed. */
  lemma {:induction false} TrailingMeaning(s: seq<Observation>, n: nat)
    requires n <= |s|
    ensures Trailing(s) >= n <==> forall k | |s| - n <= k < |s| :: Failed(s[k])
  {
    if n > 0 {
      var t := s[..|s| - 1];
      TrailingMeaning(t, n - 1);
      if Trailing(s) >= n {
        forall k | |s| - n <= k < |s| ensures Failed(s[k]) {
          if k < |s| - 1 { assert t[k] == s[k]; }
        }
      }
    }
  }

  // ---- Windows and rates, written out ------------------------------------------------------

  /** The positions of the failures. */
  ghost function FailedAt(s: seq<Observation>): set<nat> {
    set i: nat | i < |s| && s[i].outcome in {ValidationFailed, ReviewRejected, InvalidOutput, BudgetExceeded,
                                             ProviderUnavailable, AuthorityViolation, FalseAcceptance}
  }

  lemma FailedOutcomes(o: Observation)
    ensures Failed(o) <==> o.outcome in {ValidationFailed, ReviewRejected, InvalidOutput, BudgetExceeded,
                                         ProviderUnavailable, AuthorityViolation, FalseAcceptance}
  {
  }

  lemma {:induction false} FailuresCounted(s: seq<Observation>)
    ensures FailureCount(s) == |FailedAt(s)|
  {
    if s != [] {
      var before, n := s[..|s| - 1], |s| - 1;
      FailuresCounted(before);
      FailedOutcomes(s[n]);
      if Failed(s[n]) {
        assert FailedAt(s) == FailedAt(before) + {n};
      } else {
        assert FailedAt(s) == FailedAt(before);
      }
    }
  }

  /** The rate is the share of failures in ten thousandths, to the nearest with halves up; the empty window has rate zero. */
  lemma RateIs(s: seq<Observation>)
    ensures s == [] ==> FailureRate(s) == 0
    ensures s != [] ==>
              2 * FailureRate(s) * |s| <= 20000 * |FailedAt(s)| + |s| < 2 * (FailureRate(s) + 1) * |s|
  {
    FailuresCounted(s);
    hide FailedAt, FailureCount;
    if s != [] { HalfUp(FailureCount(s), |s|, FailureRate(s)); }
  }

  lemma HalfUp(f: nat, n: nat, r: nat)
    requires n > 0 && r == (2 * f * 10000 + n) / (2 * n)
    ensures 2 * r * n <= 20000 * f + n < 2 * (r + 1) * n
  {
    var x := 2 * f * 10000 + n;
    assert x == (2 * n) * (x / (2 * n)) + x % (2 * n);
  }

  /** The positions of the observations that are not canaries. */
  lemma {:induction false} NormalPositions(s: seq<Observation>) returns (at: seq<nat>)
    ensures |at| == |Normal(s)| && forall i | 0 <= i < |at| :: at[i] < |s| && s[at[i]] == Normal(s)[i]
    ensures forall i, j | 0 <= i < j < |at| :: at[i] < at[j]
    ensures forall i: nat | i < |s| :: i in at <==> !s[i].outcome.CanaryAccepted?
  {
    if s == [] {
      at := [];
    } else {
      var n := |s| - 1;
      var before := NormalPositions(s[..n]);
      at := before + if s[n].outcome.CanaryAccepted? then [] else [n];
      forall i: nat | i < |s| ensures i in at <==> !s[i].outcome.CanaryAccepted? {
        if i < n {
          assert s[..n][i] == s[i];
        }
      }
    }
  }

  /**
   The window holds, in order, the observations at some positions: all that are not canaries from its first on, as many
   as its size, or fewer and then from the start.
   */
  lemma WindowIs(p: Policy, s: seq<Observation>) returns (at: seq<nat>)
    ensures |at| == |Window(p, s)| <= p.windowSize && forall i | 0 <= i < |at| :: at[i] < |s| && s[at[i]] == Window(p, s)[i]
    ensures forall i, j | 0 <= i < j < |at| :: at[i] < at[j]
    ensures forall i | 0 <= i < |at| :: !s[at[i]].outcome.CanaryAccepted?
    ensures forall i: nat | i < |s| && !s[i].outcome.CanaryAccepted? && (|at| < p.windowSize || (at != [] && at[0] <= i)) :: i in at
  {
    var all := NormalPositions(s);
    var from := if |all| <= p.windowSize then 0 else |all| - p.windowSize;
    at := all[from..];
    hide Normal;
    forall i: nat | i < |s| && !s[i].outcome.CanaryAccepted? && (|at| < p.windowSize || (at != [] && at[0] <= i))
      ensures i in at
    {
      assert i in all;
      var k :| 0 <= k < |all| && all[k] == i;
      assert k >= from;
      assert at[k - from] == i;
    }
  }

  /** A rate above the bound, written out: more than half of a ten thousandth over it. */
  lemma RateExceeds(p: Policy, w: seq<Observation>)
    requires w != []
    ensures FailureRate(w) > p.maxRate <==> 20000 * |FailedAt(w)| >= |w| * (2 * p.maxRate + 1)
  {
    RateIs(w);
    hide FailureRate, FailedAt;
    var r, n, f := FailureRate(w), |w|, |FailedAt(w)|;
    if r > p.maxRate {
      assert 2 * r * n >= 2 * (p.maxRate + 1) * n by { MoreOf(2 * (p.maxRate + 1), 2 * r, n); }
      assert 2 * (p.maxRate + 1) * n == n * (2 * p.maxRate + 1) + n;
    } else {
      assert 2 * (r + 1) * n <= 2 * (p.maxRate + 1) * n by { MoreOf(2 * (r + 1), 2 * (p.maxRate + 1), n); }
      assert 2 * (p.maxRate + 1) * n == n * (2 * p.maxRate + 1) + n;
    }
  }

  lemma MoreOf(a: nat, b: nat, n: nat)
    requires a <= b
    ensures a * n <= b * n
  {
  }

  /** Somewhere in the stretch failures alone fill `maxConsecutive` positions. */
  predicate FailsInARow(s: seq<Observation>, from: nat, n: nat)
    requires from + n <= |s|
  {
    forall j | from <= j < from + n :: Failed(s[j])
  }

  /** Some window of the stretch is full enough and has failures above the bound. */
  ghost predicate FailsInWindow(p: Policy, s: seq<Observation>, k: nat)
    requires k <= |s|
  {
    var w := Window(p, s[..k]);
    |w| >= p.minimum && 20000 * |FailedAt(w)| >= |w| * (2 * p.maxRate + 1)
  }

  lemma TripsIff(p: Policy, s: seq<Observation>, k: nat)
    requires ValidPolicy(p) && 0 < k <= |s|
    ensures Trips(p, s[..k]) <==>
              || s[k - 1].outcome in {AuthorityViolation, FalseAcceptance}
              || (k >= p.maxConsecutive && FailsInARow(s, k - p.maxConsecutive, p.maxConsecutive))
              || FailsInWindow(p, s, k)
  {
    var w := Window(p, s[..k]);
    if w != [] { RateExceeds(p, w); }
    AllFailedCounts(s[..k]);
    if k >= p.maxConsecutive { TrailingMeaning(s[..k], p.maxConsecutive); }
    hide FailureRate, FailedAt, Window, Trailing, FailureCount, AllFailed;
    if k >= p.maxConsecutive {
      assert forall j | k - p.maxConsecutive <= j < k :: s[..k][j] == s[j];
    }
  }

  /**
   A stretch is clean exactly when it has no critical failure, no `maxConsecutive` failures in a row, and no window that
   is full enough with more than `maxRate` in ten thousand failed, up to half a ten thousandth.
   */
  lemma CleanMeans(p: Policy, s: seq<Observation>)
    requires ValidPolicy(p)
    ensures Clean(p, s) <==>
              && (forall k | 0 <= k < |s| :: s[k].outcome !in {AuthorityViolation, FalseAcceptance})
              && (forall from: nat | from + p.maxConsecutive <= |s| :: !FailsInARow(s, from, p.maxConsecutive))
              && (forall k | 0 < k <= |s| :: !FailsInWindow(p, s, k))
  {
    hide Trips, FailsInWindow, FailsInARow;
    forall k | 0 < k <= |s| { TripsIff(p, s, k); }
    if Clean(p, s) {
      forall from: nat | from + p.maxConsecutive <= |s| ensures !FailsInARow(s, from, p.maxConsecutive) {
        assert !Trips(p, s[..from + p.maxConsecutive]);
      }
      forall k | 0 <= k < |s| ensures s[k].outcome !in {AuthorityViolation, FalseAcceptance} {
        assert !Trips(p, s[..k + 1]);
      }
    } else {
      var k :| 0 < k <= |s| && Trips(p, s[..k]);
      if k >= p.maxConsecutive && FailsInARow(s, k - p.maxConsecutive, p.maxConsecutive) {
        var from: nat := k - p.maxConsecutive;
        assert FailsInARow(s, from, p.maxConsecutive);
      }
    }
  }

  /**
   Every recovery is earned: since the quarantine began or last failed (at `z`) nothing failed, and the
   required number of canaries were accepted, each no earlier than the cooldown after `z`.
   */
  lemma RecoveryEarned(p: Policy, obs: seq<Observation>, a: nat) returns (t: nat, z: nat, canaries: set<nat>)
    requires ValidPolicy(p) && 0 < a <= |obs| && HealthyStart(p, obs, a)
    ensures t <= z < a && (z == t || Failed(obs[z])) && Run(p, obs, t + 1).status == Quarantined
    ensures forall j | z < j < a :: !Failed(obs[j])
    ensures |canaries| == p.canaries
    ensures forall j | j in canaries :: z < j < a && obs[j].outcome.CanaryAccepted? && obs[j].at >= obs[z].at + p.cooldown * 1000
  {
    var b: nat, t': nat :| b <= t' < a && HealthyStart(p, obs, b) && Spell(p, obs, b, t') && FirstRecovery(p, obs, t', a);
    hide Run, HealthyStart, Spell, FreshAt, Unrecovered, TracksSick;
    t := t';
    z := LastBad(obs, t, a);
    canaries := Canaries(p, obs, z, a);
    StartTracked(p, obs, b);
    SpellTracked(p, obs, b, t);
    RecoveryFresh(p, obs, t, a);
    ExactlyEarned(p, Run(p, obs, a - 1), obs, t, a);
  }

  lemma ExactlyEarned(p: Policy, m: Monitor, obs: seq<Observation>, t: nat, a: nat)
    requires ValidPolicy(p) && t < a - 1 && a <= |obs| && RecoveryAt(p, obs, t, a) && TracksSick(p, m, obs, t, a - 1)
    ensures |Canaries(p, obs, LastBad(obs, t, a), a)| == p.canaries
  {
    CanariesGrow(p, obs, LastBad(obs, t, a), a - 1);
    hide Canaries;
  }

  /** What a healthy monitor reports is the stretch since its last recovery. */
  lemma HealthyReport(p: Policy, obs: seq<Observation>) returns (a: nat)
    requires ValidPolicy(p) && Run(p, obs, |obs|).status == Healthy
    ensures a <= |obs| && HealthyStart(p, obs, a) && Clean(p, obs[a..])
    ensures Run(p, obs, |obs|).recent == Window(p, obs[a..]) && Run(p, obs, |obs|).failures == Trailing(obs[a..])
  {
    var b, t := Located(p, obs, |obs|);
    a := b;
    StartTracked(p, obs, a);
    assert obs[a..|obs|] == obs[a..];
    CleanTracked(p, obs, a, |obs|);
  }

  /**
   Otherwise the quarantine is still open, and its clock runs from the last failure or the observation that
   began it; the reported window is the one that began it, and the reported failures are those that ended
   the healthy stretch plus all since, whether or not in a row.
   */
  lemma SickJustified(p: Policy, obs: seq<Observation>) returns (b: nat, t: nat)
    requires ValidPolicy(p) && Run(p, obs, |obs|).status != Healthy
    ensures b <= t < |obs| && HealthyStart(p, obs, b) && Spell(p, obs, b, t) && Unrecovered(p, obs, t, |obs|)
    ensures Run(p, obs, |obs|).triggeredAt == Some(obs[LastBad(obs, t, |obs|)].at)
    ensures Run(p, obs, |obs|).canaries == |Canaries(p, obs, LastBad(obs, t, |obs|), |obs|)| < p.canaries
    ensures Run(p, obs, |obs|).status == Probation <==> Canaries(p, obs, LastBad(obs, t, |obs|), |obs|) != {}
    ensures Run(p, obs, |obs|).recent == Window(p, obs[b..t + 1])
    ensures Run(p, obs, |obs|).failures == Trailing(obs[b..t + 1]) + FailureCount(obs[t + 1..])
  {
    hide Spell, Unrecovered, RecoveryAt, Clean, HealthyStart, Run, Step, Window, FreshAt;
    b, t := Located(p, obs, |obs|);
    assert obs[t + 1..|obs|] == obs[t + 1..];
    StartTracked(p, obs, b);
    SpellTracked(p, obs, b, t);
    SickFrozen(p, obs, t, |obs|);
  }

  // ---- The reported consecutive failures ---------------------------------------------------

  /** All observations of the stretch failed. */
  predicate AllFailed(s: seq<Observation>) { forall i | 0 <= i < |s| :: Failed(s[i]) }

  /** No failure of the stretch is followed by anything but failures. */
  predicate FailuresLast(s: seq<Observation>) {
    forall i, j | 0 <= i < j < |s| && Failed(s[i]) :: Failed(s[j])
  }

  lemma {:induction false} AllFailedCounts(s: seq<Observation>)
    ensures Trailing(s) <= FailureCount(s) <= |s|
    ensures AllFailed(s) <==> FailureCount(s) == |s|
    ensures AllFailed(s) ==> Trailing(s) == |s|
    ensures FailuresLast(s) <==> FailureCount(s) == Trailing(s)
  {
    if s != [] {
      var before := s[..|s| - 1];
      AllFailedCounts(before);
      assert forall i | 0 <= i < |before| :: before[i] == s[i];
      NoneFailedIff(before);
    }
  }

  lemma {:induction false} NoneFailedIff(s: seq<Observation>)
    ensures FailureCount(s) == 0 <==> forall i | 0 <= i < |s| :: !Failed(s[i])
  {
    if s != [] {
      var before := s[..|s| - 1];
      NoneFailedIff(before);
      assert forall i | 0 <= i < |before| :: before[i] == s[i];
    }
  }

  /** A stretch and what follows it end in the failures of what follows, and in its own as well if that is all failures. */
  lemma {:induction false} TrailingJoins(a: seq<Observation>, b: seq<Observation>)
    ensures Trailing(a + b) == if AllFailed(b) then Trailing(a) + |b| else Trailing(b)
  {
    if b == [] {
      assert a + b == a;
    } else {
      var before := b[..|b| - 1];
      TrailingJoins(a, before);
      assert (a + b)[..|a + b| - 1] == a + before;
      assert forall i | 0 <= i < |before| :: before[i] == b[i];
    }
  }

  /**
   The figure an unhealthy binding reports is the number of failures that end its observations exactly when every
   observation since the quarantine began failed, or when the stretch that began it does not end in a failure and
   no failure since was followed by anything else. In every other case failures are counted that do not follow one another.
   */
  lemma ReportedFailuresIff(p: Policy, obs: seq<Observation>) returns (b: nat, t: nat)
    requires ValidPolicy(p) && Run(p, obs, |obs|).status != Healthy
    ensures b <= t < |obs| && HealthyStart(p, obs, b) && Spell(p, obs, b, t) && Unrecovered(p, obs, t, |obs|)
    ensures Run(p, obs, |obs|).failures == Trailing(obs[b..]) <==>
              || AllFailed(obs[t + 1..])
              || (!Failed(obs[t]) && FailuresLast(obs[t + 1..]))
    ensures Run(p, obs, |obs|).failures >= Trailing(obs[b..])
  {
    hide HealthyStart, Spell, Unrecovered, Run, Window, LastBad, Canaries, AllFailed, FailuresLast;
    b, t := SickJustified(p, obs);
    var spell, since := obs[b..t + 1], obs[t + 1..];
    assert obs[b..] == spell + since;
    TrailingJoins(spell, since);
    AllFailedCounts(since);
    assert spell[|spell| - 1] == obs[t];
    TrailingMeaning(spell, 1);
  }

  // ---- Evaluation ------------------------------------------------------------------------

  datatype Action = Use | Quarantine | RunCanary

  datatype Snapshot = Snapshot(status: Status, routingAllowed: bool, action: Action, failures: nat, rate: nat, canaries: nat,
                               triggeredAt: Option<int>, ids: seq<string>)

  /** The comparison of identifiers is a linear order. */
  ghost predicate LinearOrder(le: (string, string) -> bool) {
    && (forall a, b :: le(a, b) || le(b, a))
    && (forall a, b, c :: le(a, b) && le(b, c) ==> le(a, c))
    && (forall a, b :: le(a, b) && le(b, a) ==> a == b)
  }

  function Earlier(idLe: (string, string) -> bool): (Observation, Observation) -> bool {
    (a: Observation, b: Observation) => a.at < b.at || (a.at == b.at && idLe(a.id, b.id))
  }

  predicate DistinctIds(obs: seq<Observation>) { forall i, j | 0 <= i < j < |obs| :: obs[i].id != obs[j].id }

  predicate InScope(obs: seq<Observation>, scope: string, evaluatedAt: int) {
    forall o | o in obs :: o.scope == scope && o.at <= evaluatedAt
  }

  function Ids(obs: seq<Observation>): seq<string> { Map((o: Observation) => o.id, obs) }

  /** The snapshot that reports a monitor. */
  function Report(p: Policy, m: Monitor, evaluatedAt: int, ids: seq<string>): Snapshot
    requires Coherent(m)
  {
    var action :=
      if m.status == Healthy then Use
      else if evaluatedAt >= m.triggeredAt.value + p.cooldown * 1000 then RunCanary else Quarantine;
    Snapshot(m.status, m.status == Healthy, action, m.failures, FailureRate(Last(m.recent, p.windowSize)), m.canaries,
             m.triggeredAt, ids)
  }

  /**
   The reported rate is the share of failures, to the nearest ten thousandth, of the window of the healthy stretch: the one
   since the last recovery, or the one that began the open quarantine.
   */
  lemma ReportedRate(p: Policy, obs: seq<Observation>, evaluatedAt: int, ids: seq<string>) returns (b: nat, t: nat, w: seq<Observation>)
    requires ValidPolicy(p)
    ensures b <= t <= |obs| && HealthyStart(p, obs, b)
    ensures if Run(p, obs, |obs|).status == Healthy then t == |obs| && Clean(p, obs[b..]) && w == Window(p, obs[b..])
            else t < |obs| && Spell(p, obs, b, t) && Unrecovered(p, obs, t, |obs|) && w == Window(p, obs[b..t + 1])
    ensures var rate := Report(p, Run(p, obs, |obs|), evaluatedAt, ids).rate;
            if w == [] then rate == 0 else 2 * rate * |w| <= 20000 * |FailedAt(w)| + |w| < 2 * (rate + 1) * |w|
  {
    hide HealthyStart, Clean, Spell, Unrecovered, Run, FailureRate, Trailing, Normal, FailureCount, Canaries, FailedAt;
    if Run(p, obs, |obs|).status == Healthy {
      b := HealthyReport(p, obs);
      t, w := |obs|, Window(p, obs[b..]);
    } else {
      b, t := SickJustified(p, obs);
      w := Window(p, obs[b..t + 1]);
    }
    assert Last(w, p.windowSize) == w;
    RateIs(w);
  }

  /**
   The recommendation: use the binding exactly when a clean stretch justifies it; otherwise run a canary exactly
   when the cooldown has passed since the open quarantine began or last failed.
   */
  lemma ActionJustified(p: Policy, obs: seq<Observation>, evaluatedAt: int, ids: seq<string>) returns (b: nat, t: nat)
    requires ValidPolicy(p)
    ensures var s := Report(p, Run(p, obs, |obs|), evaluatedAt, ids);
            && (s.action.Use? <==> s.routingAllowed)
            && (s.action.Use? <==> exists a: nat | a <= |obs| :: HealthyStart(p, obs, a) && Clean(p, obs[a..]))
            && (!s.action.Use? ==>
                  && b <= t < |obs| && HealthyStart(p, obs, b) && Spell(p, obs, b, t) && Unrecovered(p, obs, t, |obs|)
                  && (s.action.RunCanary? <==> evaluatedAt >= obs[LastBad(obs, t, |obs|)].at + p.cooldown * 1000))
  {
    hide HealthyStart, Clean, Spell, Unrecovered, Run, FailureRate, Trailing, Window, FailureCount, Canaries;
    b, t := 0, 0;
    HealthyJustified(p, obs);
    if Run(p, obs, |obs|).status != Healthy {
      b, t := SickJustified(p, obs);
    }
  }

  lemma SortedAlike(idLe: (string, string) -> bool, s: seq<Observation>, t: seq<Observation>)
    requires LinearOrder(idLe) && multiset(s) == multiset(t) && DistinctIds(s)
    ensures Sort(s, Earlier(idLe)) == Sort(t, Earlier(idLe))
  {
    var le := Earlier(idLe);
    forall x, y ensures le(x, y) || le(y, x) { assert idLe(x.id, y.id) || idLe(y.id, x.id); }
    forall x, y, z | le(x, y) && le(y, z) ensures le(x, z) {
      assert idLe(x.id, y.id) && idLe(y.id, z.id) ==> idLe(x.id, z.id);
    }
    forall x, y | x in s && y in s && le(x, y) && le(y, x) ensures x == y {
      var i :| 0 <= i < |s| && s[i] == x;
      var j :| 0 <= j < |s| && s[j] == y;
      assert s[i].id == s[j].id;
    }
    SortCanonical(s, t, le);
  }

  const DEFAULT_POLICY := Policy(20, 5, 4000, 2, 3600, 3)

  /** Two failures, a success and a failure, in time order. */
  function FailFailPassFail(scope: string): seq<Observation> {
    [Observation("a", scope, 0, ValidationFailed), Observation("b", scope, 1, ValidationFailed),
     Observation("c", scope, 2, Accepted), Observation("d", scope, 3, ValidationFailed)]
  }

  /**
   Under the default policy these four observations are accepted for evaluation and leave the binding quarantined
   with three reported failures, although only the last observation ends them in failure.
   */
  lemma FailuresNotConsecutive(idLe: (string, string) -> bool, scope: string)
    ensures var obs := FailFailPassFail(scope);
            && DEFAULT_POLICY == Policy(20, 5, 4000, 2, 3600, 3) && ValidPolicy(DEFAULT_POLICY) && DistinctIds(obs) && InScope(obs, scope, 3)
            && Sort(obs, Earlier(idLe)) == obs
            && Run(DEFAULT_POLICY, obs, 4).status == Quarantined
            && Run(DEFAULT_POLICY, obs, 4).failures == 3 && Trailing(obs) == 1
  {
    var obs := FailFailPassFail(scope);
    InOrder(obs, Earlier(idLe));
    hide FailureRate, Sort;
    assert Run(DEFAULT_POLICY, obs, 0) == Fresh;
    assert Run(DEFAULT_POLICY, obs, 1) == Monitor(Healthy, None, 0, [obs[0]], 1);
    assert Run(DEFAULT_POLICY, obs, 2).status == Quarantined && Run(DEFAULT_POLICY, obs, 2).failures == 2;
    assert Run(DEFAULT_POLICY, obs, 3) == Run(DEFAULT_POLICY, obs, 2);
    assert obs[..3][2] == obs[2];
    assert Trailing(obs[..3]) == 0;
  }

  /** Sorting leaves a sequence alone whose neighbours are in order. */
  lemma {:induction false} InOrder(s: seq<Observation>, le: (Observation, Observation) -> bool)
    requires forall i | 0 <= i < |s| - 1 :: le(s[i], s[i + 1])
    ensures Sort(s, le) == s
  {
    if s != [] {
      var tail := s[1..];
      forall i | 0 <= i < |tail| - 1 ensures le(tail[i], tail[i + 1]) {
        assert le(s[i + 1], s[i + 1 + 1]);
      }
      InOrder(tail, le);
    }
  }

  /** `evaluateRuntimeBindingHealthV4`: the monitor over the observations in time order. */
  method Evaluate(idLe: (string, string) -> bool, p: Policy, scope: string, observations: seq<Observation>, evaluatedAt: int)
    returns (r: Result<Snapshot>)
    ensures r.Ok? <==>
              && 1 <= p.windowSize <= 1000 && 1 <= p.minimum <= p.windowSize && 1 <= p.maxRate <= 10000
              && 1 <= p.maxConsecutive <= p.windowSize && 1 <= p.cooldown <= 2592000 && 1 <= p.canaries <= 100
              && (forall i, j | 0 <= i < j < |observations| :: observations[i].id != observations[j].id)
              && (forall o | o in observations :: o.scope == scope && o.at <= evaluatedAt)
    ensures var inOrder := Sort(observations, Earlier(idLe));
            r.Ok? ==> r.value == Report(p, Run(p, inOrder, |inOrder|), evaluatedAt, Ids(inOrder))
  {
    if !ValidPolicy(p) { return Err("INVALID_BINDING_HEALTH_EVIDENCE"); }
    var obs := Sort(observations, Earlier(idLe));
    assert Run(p, obs, 0) == Fresh;
    if !DistinctIds(observations) { return Err("INVALID_BINDING_HEALTH_EVIDENCE"); }
    if !InScope(observations, scope, evaluatedAt) { return Err("INVALID_BINDING_HEALTH_EVIDENCE"); }
    hide Sort, FailureRate, DistinctIds, InScope, Run;
    var status := Healthy;
    var triggeredAt: Option<int> := None;
    var canaries, failures := 0, 0;
    var recent: seq<Observation> := [];
    var i := 0;
    while i < |obs|
      invariant 0 <= i <= |obs|
      invariant Run(p, obs, i) == Monitor(status, triggeredAt, canaries, recent, failures)
    {
      var o := obs[i];
      i := i + 1;
      RunStep(p, obs, i);
      if status == Healthy {
        if !o.outcome.CanaryAccepted? { recent := Last(recent + [o], p.windowSize); }
        failures := if Failed(o) then failures + 1 else 0;
        if Critical(o) || failures >= p.maxConsecutive || (|recent| >= p.minimum && FailureRate(recent) > p.maxRate) {
          status, triggeredAt, canaries := Quarantined, Some(o.at), 0;
        }
        continue;
      }
      if Failed(o) {
        status, triggeredAt, canaries, failures := Quarantined, Some(o.at), 0, failures + 1;
        continue;
      }
      if o.outcome.CanaryAccepted? && o.at >= triggeredAt.value + p.cooldown * 1000 {
        canaries := canaries + 1;
        status := Probation;
        if canaries >= p.canaries {
          status, triggeredAt, failures, recent := Healthy, None, 0, [];
        }
      }
    }
    r := Ok(Report(p, Monitor(status, triggeredAt, canaries, recent, failures), evaluatedAt, Ids(obs)));
  }

  /** The verdict does not depend on the order in which the observations are handed in. */
  lemma OrderForgotten(idLe: (string, string) -> bool, p: Policy, s: seq<Observation>, t: seq<Observation>)
    requires LinearOrder(idLe) && multiset(s) == multiset(t) && DistinctIds(s)
    ensures Sort(s, Earlier(idLe)) == Sort(t, Earlier(idLe))
    ensures DistinctIds(t)
  {
    SortedAlike(idLe, s, t);
    assert Distinct(s);
    DistinctUnderPermutation(s, t);
    SameMembers(s, t);
    forall i, j | 0 <= i < j < |t| ensures t[i].id != t[j].id {
      assert t[i] in s && t[j] in s;
      var k :| 0 <= k < |s| && s[k] == t[i];
      var l :| 0 <= l < |s| && s[l] == t[j];
      assert if k < l then s[k].id != s[l].id else s[l].id != s[k].id;
    }
  }

  // ---- Routing -----------------------------------------------------------------------------

  /** A stored snapshot: the fields the check reads, the others, and the hash over all of them. */
  datatype Body = Body(bindingHash: string, taskTrait: string, evaluatedAt: Option<int>, routingAllowed: bool, rest: string)
  datatype Stored = Stored(body: Body, snapshotHash: string)

  /** Canonical hashing, the shape of hashes, and the known task traits. */
  datatype SnapshotChecks = SnapshotChecks(hash: Body -> string, hashShaped: string -> bool, traits: set<string>)

  predicate SnapshotOk(k: SnapshotChecks, s: Stored) {
    && s.body.evaluatedAt.Some? && k.hashShaped(s.body.bindingHash) && s.body.taskTrait in k.traits
    && s.snapshotHash == k.hash(s.body)
  }

  predicate IsAbout(s: Stored, bindingHash: string, taskTrait: string) {
    s.body.bindingHash == bindingHash && s.body.taskTrait == taskTrait
  }

  predicate SameScope(a: Stored, b: Stored) { IsAbout(a, b.body.bindingHash, b.body.taskTrait) }

  predicate Unambiguous(snapshots: seq<Stored>) {
    && |snapshots| <= 128
    && forall i, j | 0 <= i < j < |snapshots| ::
         snapshots[i].snapshotHash != snapshots[j].snapshotHash && !SameScope(snapshots[i], snapshots[j])
  }

  function FindScope(snapshots: seq<Stored>, bindingHash: string, taskTrait: string): Option<Stored> {
    if snapshots == [] then None
    else if IsAbout(snapshots[0], bindingHash, taskTrait) then Some(snapshots[0])
    else FindScope(snapshots[1..], bindingHash, taskTrait)
  }

  lemma {:induction false} ScopeFound(snapshots: seq<Stored>, bindingHash: string, taskTrait: string)
    requires Unambiguous(snapshots)
    ensures FindScope(snapshots, bindingHash, taskTrait).Some? ==> FindScope(snapshots, bindingHash, taskTrait).value in snapshots
    ensures forall s | s in snapshots && IsAbout(s, bindingHash, taskTrait) ::
              FindScope(snapshots, bindingHash, taskTrait) == Some(s)
    ensures FindScope(snapshots, bindingHash, taskTrait).Some? ==>
              IsAbout(FindScope(snapshots, bindingHash, taskTrait).value, bindingHash, taskTrait)
  {
    if snapshots != [] {
      assert forall i | 0 <= i < |snapshots[1..]| :: snapshots[1..][i] == snapshots[i + 1];
      ScopeFound(snapshots[1..], bindingHash, taskTrait);
      assert snapshots == [snapshots[0]] + snapshots[1..];
    }
  }

  /** `runtimeBindingHealthAllowsV4`: routing is allowed unless some snapshot of the binding, for one of the traits, forbids it. */
  method RoutingAllowed(k: SnapshotChecks, snapshots: seq<Stored>, bindingHash: string, taskTraits: seq<string>)
    returns (r: Result<bool>)
    ensures r.Ok? <==>
              && |snapshots| <= 128
              && (forall i, j | 0 <= i < j < |snapshots| ::
                    && snapshots[i].snapshotHash != snapshots[j].snapshotHash
                    && (|| snapshots[i].body.bindingHash != snapshots[j].body.bindingHash
                        || snapshots[i].body.taskTrait != snapshots[j].body.taskTrait))
              && (forall s | s in snapshots ::
                    && s.body.evaluatedAt != None && k.hashShaped(s.body.bindingHash) && s.body.taskTrait in k.traits
                    && s.snapshotHash == k.hash(s.body))
    ensures r.Ok? ==>
              (r.value <==> forall s | s in snapshots && s.body.bindingHash == bindingHash && s.body.taskTrait in taskTraits ::
                              s.body.routingAllowed)
  {
    if !Unambiguous(snapshots) { return Err("INVALID_BINDING_HEALTH_EVIDENCE"); }
    hide Unambiguous, FindScope;
    var i := 0;
    while i < |snapshots|
      invariant 0 <= i <= |snapshots| && forall j | 0 <= j < i :: SnapshotOk(k, snapshots[j])
    {
      if !SnapshotOk(k, snapshots[i]) { return Err("INVALID_BINDING_HEALTH_EVIDENCE"); }
      i := i + 1;
    }
    i := 0;
    while i < |taskTraits|
      invariant 0 <= i <= |taskTraits|
      invariant forall s, t | s in snapshots && t in taskTraits[..i] && IsAbout(s, bindingHash, t) :: s.body.routingAllowed
    {
      var found := FindScope(snapshots, bindingHash, taskTraits[i]);
      ScopeFound(snapshots, bindingHash, taskTraits[i]);
      if found.Some? && !found.value.body.routingAllowed { return Ok(false); }
      assert taskTraits[..i + 1] == taskTraits[..i] + [taskTraits[i]];
      i := i + 1;
    }
    assert taskTraits[..i] == taskTraits;
    r := Ok(true);
  }
}
