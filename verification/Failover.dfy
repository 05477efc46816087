/** Primary failover as the two health checkers drive it: failure counting, promotion of a replica,
    recovery with a minimum number of good checks and a cooldown, flap counting.  The theorems are
    about runs of one checker; replica health and the clock (in seconds) are inputs of every check. */
module Failover {
  import opened Prelude
  import opened CircuitBreaker

  datatype Config = Config(threshold: nat, minRecovery: nat, cooldown: nat)

  datatype Replica = Replica(healthy: bool, lagMs: nat)

  /** One check of the primary: its outcome, the clock, and the replicas as they are then. */
  datatype Check = Check(ok: bool, now: nat, replicas: seq<Replica>)

  datatype Ha = Ha(
    failures: nat,        // consecutive_failures, a 32-bit counter
    healthy: bool,
    failoverIdx: int,     // -1 while no replica stands in for the primary
    recovery: nat,        // recovery_checks
    triggeredAt: nat,     // 0 when no trigger is remembered
    promotions: nat,      // failover_events_total
    flaps: nat)
  {
    predicate Active() { failoverIdx >= 0 }
  }

  const INITIAL := Ha(0, true, -1, 0, 0, 0, 0)

  // ---------------------------------------------------------------- choosing the replica

  /** Healthy, of least lag among the healthy, and the first of those. */
  predicate IsBest(rs: seq<Replica>, i: nat) {
    && i < |rs| && rs[i].healthy
    && forall j :: 0 <= j < |rs| && rs[j].healthy ==>
         rs[i].lagMs <= rs[j].lagMs && (rs[i].lagMs == rs[j].lagMs ==> i <= j)
  }

  function Best(rs: seq<Replica>): (r: Option<nat>)
    ensures r.Some? ==> IsBest(rs, r.value)
    ensures r.None? ==> forall i :: 0 <= i < |rs| ==> !rs[i].healthy
  {
    if rs == [] then None
    else
      var n := |rs| - 1;
      var best := Best(rs[..n]);
      assert forall i :: 0 <= i < n ==> rs[..n][i] == rs[i];
      if rs[n].healthy && (best.None? || rs[n].lagMs < rs[best.value].lagMs) then Some(n) else best
  }

  method PickReplica(rs: seq<Replica>) returns (best: Option<nat>)
    ensures best == Best(rs)
  {
    best := None;
    for i := 0 to |rs|
      invariant best == Best(rs[..i])
    {
      assert rs[..i + 1][..i] == rs[..i];
      if rs[i].healthy && (best.None? || rs[i].lagMs < rs[best.value].lagMs) {
        best := Some(i);
      }
    }
    assert rs[..|rs|] == rs;
  }

  // ---------------------------------------------------------------- one check

  /** Twice the cooldown, in 64-bit arithmetic. */
  function FlapWindow(cfg: Config): nat { cfg.cooldown * 2 % U64 }

  predicate IsFlap(cfg: Config, st: Ha, now: nat) {
    st.triggeredAt > 0 && cfg.cooldown > 0 && Monus(now, st.triggeredAt) < FlapWindow(cfg)
  }

  function Trigger(cfg: Config, st: Ha, c: Check): Ha {
    var flaps := if IsFlap(cfg, st, c.now) then st.flaps + 1 else st.flaps;
    var st' := st.(flaps := flaps, triggeredAt := c.now, recovery := 0);
    match Best(c.replicas)
    case Some(i) => st'.(failoverIdx := i, promotions := st.promotions + 1)
    case None => st'
  }

  predicate CooldownOver(cfg: Config, st: Ha, now: nat) {
    st.triggeredAt == 0 || cfg.cooldown == 0 || Monus(now, st.triggeredAt) >= cfg.cooldown
  }

  function Recover(cfg: Config, st: Ha, now: nat): Ha {
    var up := st.(failures := 0, healthy := true);
    if st.Active() then
      if st.recovery + 1 < cfg.minRecovery || !CooldownOver(cfg, st, now)
      then up.(recovery := st.recovery + 1)
      else up.(failoverIdx := -1, recovery := 0, triggeredAt := 0)
    else if !st.healthy || st.failures >= cfg.threshold then up.(recovery := 0)
    else up
  }

  function Step(cfg: Config, st: Ha, c: Check): Ha {
    if c.ok then Recover(cfg, st, c.now)
    else
      var down := st.(failures := (st.failures + 1) % U32, healthy := false);
      if down.failures >= cfg.threshold && !st.Active() then Trigger(cfg, down, c) else down
  }

  /** The shared counters the checkers swap and store. */
  class BackendPool {
    var failures: nat
    var healthy: bool
    var failoverIdx: int
    var recoveryChecks: nat
    var triggeredAt: nat
    var failoverEvents: nat
    var flapTotal: nat
    const primaryBreaker: BackendBreaker

    constructor (breaker: BackendBreaker)
      ensures State() == INITIAL && primaryBreaker == breaker
    {
      failures, healthy, failoverIdx, recoveryChecks := 0, true, -1, 0;
      triggeredAt, failoverEvents, flapTotal := 0, 0, 0;
      primaryBreaker := breaker;
    }

    function State(): Ha
      reads this
    {
      Ha(failures, healthy, failoverIdx, recoveryChecks, triggeredAt, failoverEvents, flapTotal)
    }
  }

  class HealthChecker {
    const pool: BackendPool
    const cfg: Config

    constructor (pool: BackendPool, cfg: Config)
      ensures this.pool == pool && this.cfg == cfg
    {
      this.pool, this.cfg := pool, cfg;
    }

    /** `check_primary`, after the connection attempt and the ping. */
    method CheckPrimary(c: Check)
      modifies pool
      ensures pool.State() == Step(cfg, old(pool.State()), c)
    {
      if c.ok {
        PrimaryUp(c.now);
      } else {
        pool.failures := (pool.failures + 1) % U32;
        pool.healthy := false;
        if pool.failures >= cfg.threshold && pool.failoverIdx < 0 {
          TriggerFailover(c);
        }
      }
    }

    method PrimaryUp(now: nat)
      modifies pool
      ensures pool.State() == Recover(cfg, old(pool.State()), now)
    {
      var prevFailures := pool.failures;
      pool.failures := 0;
      var wasDown := !pool.healthy;
      pool.healthy := true;
      if pool.failoverIdx >= 0 {
        pool.recoveryChecks := pool.recoveryChecks + 1;
        if pool.recoveryChecks < cfg.minRecovery { return; }
        if pool.triggeredAt > 0 && cfg.cooldown > 0 {
          var elapsed := Monus(now, pool.triggeredAt);
          if elapsed < cfg.cooldown { return; }
        }
        pool.failoverIdx := -1;
        pool.recoveryChecks := 0;
        pool.triggeredAt := 0;
      } else if wasDown || prevFailures >= cfg.threshold {
        pool.recoveryChecks := 0;
      }
    }

    /** `trigger_failover` */
    method TriggerFailover(c: Check)
      modifies pool
      ensures pool.State() == Trigger(cfg, old(pool.State()), c)
    {
      if pool.triggeredAt > 0 && cfg.cooldown > 0 {
        var elapsed := Monus(c.now, pool.triggeredAt);
        if elapsed < cfg.cooldown * 2 % U64 {
          pool.flapTotal := pool.flapTotal + 1;
        }
      }
      pool.triggeredAt := c.now;
      pool.recoveryChecks := 0;
      var best := PickReplica(c.replicas);
      if best.Some? {
        pool.failoverIdx := best.value;
        pool.failoverEvents := pool.failoverEvents + 1;
      }
    }
  }

  /** The PostgreSQL checker does the same and records each outcome in the primary's breaker. */
  class PgHealthChecker {
    const checker: HealthChecker

    constructor (checker: HealthChecker)
      ensures this.checker == checker
    {
      this.checker := checker;
    }

    method CheckPrimary(c: Check, nowMs: nat)
      modifies checker.pool, checker.pool.primaryBreaker
      ensures checker.pool.State() == Step(checker.cfg, old(checker.pool.State()), c)
      ensures checker.pool.primaryBreaker.Value() ==
              if c.ok then old(checker.pool.primaryBreaker.Value()).Succeed()
              else old(checker.pool.primaryBreaker.Value()).Fail(nowMs, checker.pool.primaryBreaker.threshold)
    {
      if c.ok {
        checker.pool.primaryBreaker.RecordSuccess();
      } else {
        checker.pool.primaryBreaker.RecordFailure(nowMs);
      }
      checker.CheckPrimary(c);
    }
  }

  // ---------------------------------------------------------------- runs and what they show

  function Run(cfg: Config, h: seq<Check>): Ha {
    if h == [] then INITIAL else Step(cfg, Run(cfg, h[..|h| - 1]), h[|h| - 1])
  }

  lemma {:induction false} RunPrefix(cfg: Config, h: seq<Check>, k: nat)
    requires k < |h|
    ensures Run(cfg, h[..k + 1]) == Step(cfg, Run(cfg, h[..k]), h[k])
  {
    assert h[..k + 1][..k] == h[..k];
    hide Step;
  }

  predicate Attempts(cfg: Config, st: Ha, c: Check) {
    !c.ok && !st.Active() && (st.failures + 1) % U32 >= cfg.threshold
  }

  /** What one check does, field by field. */
  lemma {:induction false} StepEffect(cfg: Config, st: Ha, c: Check)
    ensures var st' := Step(cfg, st, c);
            var promotes := Attempts(cfg, st, c) && Best(c.replicas).Some?;
            var clears := c.ok && st.Active() && st.recovery + 1 >= cfg.minRecovery && CooldownOver(cfg, st, c.now);
            && (!st.Active() && st'.Active() <==> promotes)
            && (st.Active() && !st'.Active() <==> clears)
            && (st.Active() && st'.Active() ==> st'.failoverIdx == st.failoverIdx)
            && (promotes ==> st'.failoverIdx == Best(c.replicas).value)
            && (clears ==> st'.failoverIdx == -1)
            && (!st.Active() && !promotes ==> st'.failoverIdx == st.failoverIdx)
            && st'.promotions == st.promotions + (if promotes then 1 else 0)
            && st'.failures == (if c.ok then 0 else (st.failures + 1) % U32)
            && st'.healthy == c.ok
            && (st'.Active() ==> st'.recovery == if promotes then 0 else if c.ok then st.recovery + 1 else st.recovery)
            && (!st'.Active() ==> st'.recovery == 0 || (st'.recovery == st.recovery && !st.Active()))
            && st'.triggeredAt == (if clears then 0 else if Attempts(cfg, st, c) then c.now else st.triggeredAt)
            && st'.flaps == st.flaps + (if Attempts(cfg, st, c) && IsFlap(cfg, st, c.now) then 1 else 0)
  {
    hide Best;
  }

  /** The last check of the run promoted a replica. */
  predicate Promotes(cfg: Config, h: seq<Check>) {
    h != [] && !Run(cfg, h[..|h| - 1]).Active() && Run(cfg, h).Active()
  }

  /** The last check of the run gave the primary its traffic back. */
  predicate Clears(cfg: Config, h: seq<Check>) {
    h != [] && Run(cfg, h[..|h| - 1]).Active() && !Run(cfg, h).Active()
  }

  function PromotionTimes(cfg: Config, h: seq<Check>): seq<nat> {
    if h == [] then []
    else PromotionTimes(cfg, h[..|h| - 1]) + if Promotes(cfg, h) then [h[|h| - 1].now] else []
  }

  function ClearCount(cfg: Config, h: seq<Check>): nat {
    if h == [] then 0 else ClearCount(cfg, h[..|h| - 1]) + if Clears(cfg, h) then 1 else 0
  }

  function TrailingFailures(h: seq<Check>): nat {
    if h == [] || h[|h| - 1].ok then 0 else TrailingFailures(h[..|h| - 1]) + 1
  }

  function GoodChecksSincePromotion(cfg: Config, h: seq<Check>): nat {
    if h == [] || Promotes(cfg, h) then 0
    else GoodChecksSincePromotion(cfg, h[..|h| - 1]) + if h[|h| - 1].ok then 1 else 0
  }

  lemma CounterWraps(n: nat)
    ensures (n % U32 + 1) % U32 == (n + 1) % U32
  {
  }

  /** The failure counter is the trailing run of failed checks, modulo its width. */
  lemma {:induction false} FailureCounter(cfg: Config, h: seq<Check>)
    ensures Run(cfg, h).failures == TrailingFailures(h) % U32
    ensures Run(cfg, h).healthy == (TrailingFailures(h) == 0)
  {
    if h != [] {
      var front := h[..|h| - 1];
      FailureCounter(cfg, front);
      StepEffect(cfg, Run(cfg, front), h[|h| - 1]);
      CounterWraps(TrailingFailures(front));
      hide Step, Attempts, Best, CooldownOver, IsFlap;
    }
  }

  /** The promotion counter is the promotions seen from outside, which is the clears plus the one
      standing; while a replica stands in, the recovery counter and the remembered time are the good
      checks since its promotion and the time of it. */
  lemma {:induction false} PromotionCounter(cfg: Config, h: seq<Check>)
    ensures var st := Run(cfg, h);
            && st.failoverIdx >= -1
            && st.promotions == |PromotionTimes(cfg, h)|
            && st.promotions == ClearCount(cfg, h) + (if st.Active() then 1 else 0)
            && st.recovery == (if st.Active() then GoodChecksSincePromotion(cfg, h) else 0)
            && (st.Active() ==> st.triggeredAt == PromotionTimes(cfg, h)[|PromotionTimes(cfg, h)| - 1])
  {
    if h != [] {
      var front, c := h[..|h| - 1], h[|h| - 1];
      PromotionCounter(cfg, front);
      StepEffect(cfg, Run(cfg, front), c);
      assert Run(cfg, front).Active() ==> !Attempts(cfg, Run(cfg, front), c);
      assert !c.ok || !Attempts(cfg, Run(cfg, front), c);
      hide Step, Attempts, Best, CooldownOver, IsFlap;
    }
  }

  /** The good checks at the end of the run, with no failed one among them. */
  function ConsecutiveGood(h: seq<Check>): nat {
    if h == [] || !h[|h| - 1].ok then 0 else ConsecutiveGood(h[..|h| - 1]) + 1
  }

  /** Since the latest promotion some good check was followed by a failed one. */
  predicate FailedAfterGood(cfg: Config, h: seq<Check>) {
    && h != [] && !Promotes(cfg, h)
    && (FailedAfterGood(cfg, h[..|h| - 1])
        || (!h[|h| - 1].ok && GoodChecksSincePromotion(cfg, h[..|h| - 1]) > 0))
  }

  lemma {:induction false} GoodChecksAreConsecutive(cfg: Config, h: seq<Check>)
    requires Run(cfg, h).Active()
    ensures ConsecutiveGood(h) <= GoodChecksSincePromotion(cfg, h)
    ensures ConsecutiveGood(h) == GoodChecksSincePromotion(cfg, h) <==> !FailedAfterGood(cfg, h)
  {
    var front, c := h[..|h| - 1], h[|h| - 1];
    assert h == front + [c];
    hide Run, IsBest;
    if Promotes(cfg, h) {
      PromotesIff(cfg, front, c);
    } else {
      GoodChecksAreConsecutive(cfg, front);
    }
  }

  /** While a replica stands in, the recovery counter is the number of consecutive good checks exactly
      when no failed check followed a good one since the promotion: a failed check does not reset it. */
  lemma {:induction false} RecoveryIsConsecutiveIff(cfg: Config, h: seq<Check>)
    requires Run(cfg, h).Active()
    ensures Run(cfg, h).recovery == ConsecutiveGood(h) <==> !FailedAfterGood(cfg, h)
  {
    PromotionCounter(cfg, h);
    GoodChecksAreConsecutive(cfg, h);
    hide Run;
  }

  const STANDBY := [Replica(true, 0)]

  lemma {:induction false} StandbyIsBest()
    ensures Best(STANDBY) == Some(0)
  {
  }

  lemma {:induction false} ClearedByOneStates()
    ensures var cfg := Config(1, 2, 0);
            && Step(cfg, INITIAL, Check(false, 1, STANDBY)) == Ha(1, false, 0, 0, 1, 1, 0)
            && Step(cfg, Ha(1, false, 0, 0, 1, 1, 0), Check(true, 2, [])) == Ha(0, true, 0, 1, 1, 1, 0)
            && Step(cfg, Ha(0, true, 0, 1, 1, 1, 0), Check(false, 3, [])) == Ha(1, false, 0, 1, 1, 1, 0)
            && Step(cfg, Ha(1, false, 0, 1, 1, 1, 0), Check(true, 4, [])) == Ha(0, true, -1, 0, 0, 1, 0)
  {
    StandbyIsBest();
    hide Best;
  }

  /** Two good checks are asked for, and one after a failure clears the failover. */
  lemma {:induction false} ClearedByOneGoodCheck()
    ensures var h := [Check(false, 1, STANDBY), Check(true, 2, []), Check(false, 3, []), Check(true, 4, [])];
            Clears(Config(1, 2, 0), h) && ConsecutiveGood(h) == 1
  {
    var cfg := Config(1, 2, 0);
    var h := [Check(false, 1, STANDBY), Check(true, 2, []), Check(false, 3, []), Check(true, 4, [])];
    RunPrefix(cfg, h, 0);
    RunPrefix(cfg, h, 1);
    RunPrefix(cfg, h, 2);
    RunPrefix(cfg, h, 3);
    ClearedByOneStates();
    assert h[..4] == h && ConsecutiveGood(h[..3]) == 0 && Run(cfg, h[..0]) == INITIAL;
    hide Step, Run;
  }

  /** Once promoted, a replica stays the stand-in until a clear: more checks without one change nothing. */
  lemma {:induction false} StandInIsStable(cfg: Config, h: seq<Check>, k: nat)
    requires k <= |h| && Run(cfg, h[..k]).Active()
    requires ClearCount(cfg, h) == ClearCount(cfg, h[..k])
    ensures Run(cfg, h).failoverIdx == Run(cfg, h[..k]).failoverIdx
    decreases |h|
  {
    if k == |h| {
      assert h[..k] == h;
    } else {
      var front := h[..|h| - 1];
      assert front[..k] == h[..k];
      ClearCountGrows(cfg, front, k);
      StandInIsStable(cfg, front, k);
      StepEffect(cfg, Run(cfg, front), h[|h| - 1]);
      hide Step;
    }
  }

  lemma {:induction false} ClearCountGrows(cfg: Config, h: seq<Check>, k: nat)
    requires k <= |h|
    ensures ClearCount(cfg, h[..k]) <= ClearCount(cfg, h)
  {
    if k == |h| {
      assert h[..k] == h;
    } else {
      assert h[..|h| - 1][..k] == h[..k];
      ClearCountGrows(cfg, h[..|h| - 1], k);
    }
  }

  /** A promotion happens exactly at a failed check that reaches the threshold with no stand-in and
      some healthy replica, and it takes the first healthy replica of least lag. */
  lemma PromotesIff(cfg: Config, h: seq<Check>, c: Check)
    ensures Promotes(cfg, h + [c]) <==>
            && !c.ok && !Run(cfg, h).Active()
            && (TrailingFailures(h) + 1) % U32 >= cfg.threshold
            && exists i :: 0 <= i < |c.replicas| && c.replicas[i].healthy
    ensures Promotes(cfg, h + [c]) ==>
              var i, rs := Run(cfg, h + [c]).failoverIdx, c.replicas;
              && 0 <= i < |rs| && rs[i].healthy
              && forall j :: 0 <= j < |rs| && rs[j].healthy ==>
                   rs[i].lagMs < rs[j].lagMs || (rs[i].lagMs == rs[j].lagMs && i <= j)
  {
    assert (h + [c])[..|h|] == h;
    FailureCounter(cfg, h);
    StepEffect(cfg, Run(cfg, h), c);
    CounterWraps(TrailingFailures(h));
    BestExists(c.replicas);
    hide Step, Best, TrailingFailures, PromotionTimes, ClearCount, GoodChecksSincePromotion;
  }

  lemma BestExists(rs: seq<Replica>)
    ensures Best(rs).Some? <==> exists i :: 0 <= i < |rs| && rs[i].healthy
    ensures Best(rs).Some? ==> IsBest(rs, Best(rs).value)
  {
    var best := Best(rs);
  }

  /** A clear happens exactly at a good check that completes the required number of good checks since
      the promotion, once the cooldown since the promotion is over or was never armed. */
  lemma ClearsIff(cfg: Config, h: seq<Check>, c: Check)
    ensures Clears(cfg, h + [c]) <==>
            && c.ok && Run(cfg, h).Active()
            && GoodChecksSincePromotion(cfg, h) + 1 >= cfg.minRecovery
            && (var times := PromotionTimes(cfg, h);
                times == [] || times[|times| - 1] == 0 || cfg.cooldown == 0
                || Monus(c.now, times[|times| - 1]) >= cfg.cooldown)
  {
    assert (h + [c])[..|h|] == h;
    PromotionCounter(cfg, h);
    StepEffect(cfg, Run(cfg, h), c);
    hide Step;
  }

  // ---------------------------------------------------------------- rate of promotions

  function Needed(cfg: Config, promotions: nat, clears: nat): nat {
    promotions * Max(1, cfg.threshold) + clears * Max(1, cfg.minRecovery)
  }

  /** The checks used up by the promotions and clears so far and by the run under way. */
  function Spent(cfg: Config, h: seq<Check>): nat {
    Needed(cfg, |PromotionTimes(cfg, h)|, ClearCount(cfg, h))
    + if Run(cfg, h).Active() then GoodChecksSincePromotion(cfg, h) else TrailingFailures(h)
  }

  lemma {:induction false} PromotionSpends(cfg: Config, h: seq<Check>, c: Check)
    requires Promotes(cfg, h + [c])
    ensures Spent(cfg, h + [c]) <= Spent(cfg, h) + 1
  {
    assert (h + [c])[..|h|] == h;
    PromotesIff(cfg, h, c);
    NeededGrows(cfg, |PromotionTimes(cfg, h)|, ClearCount(cfg, h));
    assert (TrailingFailures(h) + 1) % U32 <= TrailingFailures(h) + 1;
    hide Run, Needed, IsBest, TrailingFailures, GoodChecksSincePromotion;
    assert GoodChecksSincePromotion(cfg, h + [c]) == 0 by { PromotionResets(cfg, h + [c]); }
  }

  lemma {:induction false} PromotionResets(cfg: Config, h: seq<Check>)
    requires Promotes(cfg, h)
    ensures GoodChecksSincePromotion(cfg, h) == 0
  {
    hide Promotes;
  }

  lemma {:induction false} ClearSpends(cfg: Config, h: seq<Check>, c: Check)
    requires Clears(cfg, h + [c])
    ensures Spent(cfg, h + [c]) <= Spent(cfg, h) + 1
  {
    assert (h + [c])[..|h|] == h;
    ClearsIff(cfg, h, c);
    NeededGrows(cfg, |PromotionTimes(cfg, h)|, ClearCount(cfg, h));
    assert TrailingFailures(h + [c]) == 0;
    hide Run, Needed, GoodChecksSincePromotion, TrailingFailures;
  }

  lemma {:induction false} QuietCheckSpends(cfg: Config, h: seq<Check>, c: Check)
    requires !Promotes(cfg, h + [c]) && !Clears(cfg, h + [c])
    ensures Spent(cfg, h + [c]) <= Spent(cfg, h) + 1
  {
    assert (h + [c])[..|h|] == h;
    hide Run, Needed;
  }

  /** Every check is spent on at most one threshold run or recovery run. */
  lemma {:induction false} ChecksSpent(cfg: Config, h: seq<Check>)
    ensures |h| >= Spent(cfg, h)
  {
    if h == [] {
      assert Needed(cfg, 0, 0) == 0;
    } else {
      var front, c := h[..|h| - 1], h[|h| - 1];
      ChecksSpent(cfg, front);
      assert h == front + [c];
      hide Spent, Promotes, Clears;
      if Promotes(cfg, h) {
        PromotionSpends(cfg, front, c);
      } else if Clears(cfg, h) {
        ClearSpends(cfg, front, c);
      } else {
        QuietCheckSpends(cfg, front, c);
      }
    }
  }

  lemma NeededGrows(cfg: Config, p: nat, q: nat)
    ensures Needed(cfg, p + 1, q) == Needed(cfg, p, q) + Max(1, cfg.threshold)
    ensures Needed(cfg, p, q + 1) == Needed(cfg, p, q) + Max(1, cfg.minRecovery)
  {
    var t, m := Max(1, cfg.threshold), Max(1, cfg.minRecovery);
    assert (p + 1) * t == p * t + t && (q + 1) * m == q * m + m;
  }

  /** k promotions take at least k * max(1, threshold) + (k - 1) * max(1, minRecovery) checks. */
  lemma PromotionsAreRare(cfg: Config, h: seq<Check>)
    ensures var k := |PromotionTimes(cfg, h)|;
            k >= 1 ==> |h| >= k * Max(1, cfg.threshold) + (k - 1) * Max(1, cfg.minRecovery)
  {
    ChecksSpent(cfg, h);
    PromotionCounter(cfg, h);
    var k := |PromotionTimes(cfg, h)|;
    if k >= 1 && ClearCount(cfg, h) == k { NeededGrows(cfg, k, k - 1); }
  }

  // ---------------------------------------------------------------- time between promotions

  /** The clock is positive and never goes back. */
  predicate ClockOk(h: seq<Check>) {
    h == [] ||
    (var front := h[..|h| - 1];
     ClockOk(front) && h[|h| - 1].now > 0 && (front != [] ==> front[|front| - 1].now <= h[|h| - 1].now))
  }

  /** Each promotion comes at least a cooldown after the one before it. */
  predicate Spaced(times: seq<nat>, cooldown: nat) {
    forall i :: 0 < i < |times| ==> times[i - 1] + cooldown <= times[i]
  }

  lemma SpacedSnoc(times: seq<nat>, t: nat, cooldown: nat)
    requires Spaced(times, cooldown)
    requires times != [] ==> times[|times| - 1] + cooldown <= t
    ensures Spaced(times + [t], cooldown)
  {
  }

  /** The latest promotion was at a positive time, and a whole cooldown ago when no replica stands in. */
  predicate LatestOk(cfg: Config, h: seq<Check>, times: seq<nat>) {
    times != [] ==>
      && h != [] && 0 < times[|times| - 1] <= h[|h| - 1].now
      && (!Run(cfg, h).Active() ==> times[|times| - 1] + cfg.cooldown <= h[|h| - 1].now)
  }

  lemma {:induction false} PromotionStaysSpaced(cfg: Config, h: seq<Check>, c: Check)
    requires Promotes(cfg, h + [c]) && c.now > 0 && (h != [] ==> h[|h| - 1].now <= c.now)
    requires Spaced(PromotionTimes(cfg, h), cfg.cooldown) && LatestOk(cfg, h, PromotionTimes(cfg, h))
    ensures Spaced(PromotionTimes(cfg, h + [c]), cfg.cooldown)
    ensures LatestOk(cfg, h + [c], PromotionTimes(cfg, h + [c]))
  {
    assert (h + [c])[..|h|] == h;
    SpacedSnoc(PromotionTimes(cfg, h), c.now, cfg.cooldown);
    hide Run, Spaced;
  }

  lemma {:induction false} OthersStaySpaced(cfg: Config, h: seq<Check>, c: Check)
    requires !Promotes(cfg, h + [c]) && (h != [] ==> h[|h| - 1].now <= c.now)
    requires LatestOk(cfg, h, PromotionTimes(cfg, h))
    ensures PromotionTimes(cfg, h + [c]) == PromotionTimes(cfg, h)
    ensures LatestOk(cfg, h + [c], PromotionTimes(cfg, h))
  {
    assert (h + [c])[..|h|] == h;
    ClearsIff(cfg, h, c);
    hide Run, GoodChecksSincePromotion;
  }

  lemma {:induction false} PromotionsAreSpaced(cfg: Config, h: seq<Check>)
    requires ClockOk(h)
    ensures Spaced(PromotionTimes(cfg, h), cfg.cooldown)
    ensures LatestOk(cfg, h, PromotionTimes(cfg, h))
  {
    if h != [] {
      var front, c := h[..|h| - 1], h[|h| - 1];
      PromotionsAreSpaced(cfg, front);
      assert h == front + [c];
      hide LatestOk, PromotionTimes, Promotes;
      if Promotes(cfg, h) {
        PromotionStaysSpaced(cfg, front, c);
      } else {
        OthersStaySpaced(cfg, front, c);
      }
    }
  }

  /** In seconds, k promotions span at least (k - 1) * cooldown. */
  lemma {:induction false} SpanOf(times: seq<nat>, cooldown: nat, i: nat, j: nat)
    requires Spaced(times, cooldown) && i <= j < |times|
    ensures times[j] - times[i] >= (j - i) * cooldown
    decreases j
  {
    if i < j {
      SpanOf(times, cooldown, i, j - 1);
      assert (j - i) * cooldown == (j - 1 - i) * cooldown + cooldown;
    }
  }

  lemma PromotionSpan(cfg: Config, h: seq<Check>)
    requires ClockOk(h)
    ensures var times := PromotionTimes(cfg, h);
            times != [] ==> times[|times| - 1] - times[0] >= (|times| - 1) * cfg.cooldown
  {
    PromotionsAreSpaced(cfg, h);
    var times := PromotionTimes(cfg, h);
    if times != [] { SpanOf(times, cfg.cooldown, 0, |times| - 1); }
  }

  // ---------------------------------------------------------------- flaps

  /** The last check failed, reached the threshold with no stand-in, and so looked for a replica. */
  predicate EndsInAttempt(cfg: Config, h: seq<Check>) {
    && h != [] && !h[|h| - 1].ok && !Run(cfg, h[..|h| - 1]).Active()
    && (TrailingFailures(h[..|h| - 1]) + 1) % U32 >= cfg.threshold
  }

  lemma {:induction false} EndsInAttemptIff(cfg: Config, h: seq<Check>, c: Check)
    ensures EndsInAttempt(cfg, h + [c]) <==> Attempts(cfg, Run(cfg, h), c)
  {
    assert (h + [c])[..|h|] == h;
    FailureCounter(cfg, h);
    CounterWraps(TrailingFailures(h));
    hide TrailingFailures, Run;
  }

  /** The time of the last attempt, and whether it found a healthy replica. */
  function LastAttempt(cfg: Config, h: seq<Check>): Option<(nat, bool)> {
    if h == [] then None
    else if EndsInAttempt(cfg, h) then Some((h[|h| - 1].now, Best(h[|h| - 1].replicas).Some?))
    else LastAttempt(cfg, h[..|h| - 1])
  }

  /** The remembered trigger time outlives a failed attempt only: a clear forgets it. */
  lemma {:induction false} RememberedTrigger(cfg: Config, h: seq<Check>)
    ensures var st := Run(cfg, h);
            var last := LastAttempt(cfg, h);
            && (st.Active() ==> last.Some? && last.value.1)
            && (!st.Active() ==> st.triggeredAt == if last.Some? && !last.value.1 then last.value.0 else 0)
  {
    if h != [] {
      var front, c := h[..|h| - 1], h[|h| - 1];
      RememberedTrigger(cfg, front);
      StepEffect(cfg, Run(cfg, front), c);
      EndsInAttemptIff(cfg, front, c);
      assert h == front + [c];
      assert Run(cfg, front).Active() ==> !Attempts(cfg, Run(cfg, front), c);
      hide Step, Best, Attempts, CooldownOver, EndsInAttempt, IsFlap;
      assert Run(cfg, h) == Step(cfg, Run(cfg, front), c);
    }
  }

  /** The flap counter rises exactly at a failed check that reaches the threshold with no stand-in,
      when the attempt before it found no healthy replica, at a positive time less than twice the
      cooldown before. */
  lemma {:induction false} FlapIff(cfg: Config, h: seq<Check>, c: Check)
    ensures var last := LastAttempt(cfg, h);
            Run(cfg, h + [c]).flaps == Run(cfg, h).flaps +
              if && !c.ok && !Run(cfg, h).Active() && (TrailingFailures(h) + 1) % U32 >= cfg.threshold
                 && last.Some? && !last.value.1 && last.value.0 > 0
                 && cfg.cooldown > 0 && Monus(c.now, last.value.0) < cfg.cooldown * 2 % 0x1_0000_0000_0000_0000
              then 1 else 0
  {
    assert (h + [c])[..|h|] == h;
    RememberedTrigger(cfg, h);
    EndsInAttemptIff(cfg, h, c);
    StepEffect(cfg, Run(cfg, h), c);
    assert Run(cfg, h + [c]) == Step(cfg, Run(cfg, h), c);
    hide Step, Best, Run, LastAttempt, TrailingFailures;
  }

  /** After an attempt that promoted a replica, no check counts a flap. */
  lemma {:induction false} PromotedAttemptIsNoFlap(cfg: Config, h: seq<Check>, c: Check)
    requires LastAttempt(cfg, h).Some? && LastAttempt(cfg, h).value.1
    ensures Run(cfg, h + [c]).flaps == Run(cfg, h).flaps
  {
    FlapIff(cfg, h, c);
  }

  lemma {:induction false} LastAttemptStays(cfg: Config, h: seq<Check>, k: nat)
    requires k <= |h|
    requires forall j :: k < j <= |h| ==> !EndsInAttempt(cfg, h[..j])
    ensures LastAttempt(cfg, h) == LastAttempt(cfg, h[..k])
  {
    if k == |h| {
      assert h[..k] == h;
    } else {
      var front := h[..|h| - 1];
      assert h[..|h|] == h && front[..k] == h[..k];
      assert forall j :: k < j <= |front| ==> front[..j] == h[..j];
      hide EndsInAttempt;
      LastAttemptStays(cfg, front, k);
    }
  }

  /** A failover that is cleared after k checks and next attempted at `c` is not counted as a flap,
      however soon that is. */
  lemma {:induction false} ClearedFailoverIsNoFlap(cfg: Config, h: seq<Check>, k: nat, c: Check)
    requires k <= |h| && Clears(cfg, h[..k])
    requires forall j :: k < j <= |h| ==> !EndsInAttempt(cfg, h[..j])
    requires EndsInAttempt(cfg, h + [c])
    ensures Run(cfg, h + [c]).flaps == Run(cfg, h).flaps
  {
    var cleared := h[..k];
    RememberedTrigger(cfg, cleared[..k - 1]);
    assert !EndsInAttempt(cfg, cleared);
    LastAttemptStays(cfg, h, k);
    hide EndsInAttempt, Run;
    PromotedAttemptIsNoFlap(cfg, h, c);
  }

  lemma {:induction false} ReTriggeredStates()
    ensures var cfg := Config(1, 1, 10);
            && Step(cfg, INITIAL, Check(false, 100, STANDBY)) == Ha(1, false, 0, 0, 100, 1, 0)
            && Step(cfg, Ha(1, false, 0, 0, 100, 1, 0), Check(true, 110, [])) == Ha(0, true, -1, 0, 0, 1, 0)
            && Step(cfg, Ha(0, true, -1, 0, 0, 1, 0), Check(false, 111, STANDBY)) == Ha(1, false, 0, 0, 111, 2, 0)
  {
    StandbyIsBest();
    hide Best;
  }

  /** Promoted at 100, cleared at 110 and promoted again at 111, within the flap window: no flap. */
  lemma {:induction false} ReTriggeredUncounted()
    ensures var cfg := Config(1, 1, 10);
            var h := [Check(false, 100, STANDBY), Check(true, 110, []), Check(false, 111, STANDBY)];
            && Promotes(cfg, h[..1]) && Clears(cfg, h[..2]) && Promotes(cfg, h)
            && 111 - 100 < 2 * cfg.cooldown && Run(cfg, h).flaps == 0
  {
    var cfg := Config(1, 1, 10);
    var h := [Check(false, 100, STANDBY), Check(true, 110, []), Check(false, 111, STANDBY)];
    RunPrefix(cfg, h, 0);
    RunPrefix(cfg, h, 1);
    RunPrefix(cfg, h, 2);
    ReTriggeredStates();
    assert h[..3] == h && h[..1][..0] == h[..0] && h[..2][..1] == h[..1] && Run(cfg, h[..0]) == INITIAL;
    hide Step, Run;
  }

  // ---------------------------------------------------------------- health and breaker together

  /** The PostgreSQL checker's checks, with the clock the breaker reads, and calls of `allows`. */
  datatype PgEvent = Checked(c: Check, nowMs: nat) | Asked(nowMs: nat)

  function ChecksOf(h: seq<PgEvent>): seq<Check> {
    if h == [] then []
    else ChecksOf(h[..|h| - 1]) + if h[|h| - 1].Checked? then [h[|h| - 1].c] else []
  }

  function OutcomesOf(h: seq<PgEvent>): seq<Event> {
    if h == [] then []
    else OutcomesOf(h[..|h| - 1]) + [
      match h[|h| - 1]
      case Checked(c, nowMs) => if c.ok then Success else Failure(nowMs)
      case Asked(nowMs) => Ask(nowMs)]
  }

  lemma {:induction false} SameFailures(h: seq<PgEvent>)
    ensures FailuresSinceSuccess(OutcomesOf(h)) == TrailingFailures(ChecksOf(h))
  {
    if h != [] {
      var front := h[..|h| - 1];
      SameFailures(front);
      var os := OutcomesOf(h);
      assert os[..|os| - 1] == OutcomesOf(front);
      var cs := ChecksOf(h);
      if h[|h| - 1].Checked? {
        assert cs[..|cs| - 1] == ChecksOf(front);
      } else {
        assert cs == ChecksOf(front);
      }
    }
  }

  /** In every run where only the checker records outcomes, the primary's breaker is closed exactly
      while the trailing failed checks number less than max(1, cbThreshold), and while it is closed its
      error count is the checker's consecutive-failure count. */
  lemma HealthAndBreakerCoupled(cfg: Config, cbThreshold: nat, recoveryMs: nat, h: seq<PgEvent>)
    requires cbThreshold < U32
    ensures var b := Replay(OutcomesOf(h), cbThreshold, recoveryMs);
            var st := Run(cfg, ChecksOf(h));
            && (b.state == Closed <==> TrailingFailures(ChecksOf(h)) < Max(1, cbThreshold))
            && (b.state == Closed ==> b.errors == st.failures && st.failures < Max(1, cbThreshold))
            && (TrailingFailures(ChecksOf(h)) < U32 ==> (b.state == Closed <==> st.failures < Max(1, cbThreshold)))
  {
    SameFailures(h);
    ClosedIff(OutcomesOf(h), cbThreshold, recoveryMs);
    FailureCounter(cfg, ChecksOf(h));
    hide Run, Replay, OutcomesOf, ChecksOf, TrailingFailures, FailuresSinceSuccess;
  }
}
