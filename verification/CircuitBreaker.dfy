/** The per-backend circuit breaker: Closed, Open, HalfOpen, driven by recorded outcomes and a clock
    in milliseconds that is an input to each step. */
module CircuitBreaker {
  import opened Prelude

  datatype CbState = Closed | HalfOpen | Open

  datatype Breaker = Breaker(state: CbState, errors: nat, openedAt: nat) {

    /** `allows`: an open breaker turns half-open once the recovery time has passed. */
    function Admit(now: nat, recoveryMs: nat): (bool, Breaker) {
      match state
      case Closed => (true, this)
      case HalfOpen => (true, this)
      case Open =>
        if Monus(now, openedAt) >= recoveryMs then (true, this.(state := HalfOpen)) else (false, this)
    }

    function Succeed(): Breaker { this.(state := Closed, errors := 0) }

    function Fail(now: nat, threshold: nat): Breaker {
      match state
      case Closed =>
        if errors + 1 >= threshold then Breaker(Open, 0, now) else this.(errors := errors + 1)
      case HalfOpen => Breaker(Open, 0, now)
      case Open => this
    }
  }

  const FRESH := Breaker(Closed, 0, 0)

  class BackendBreaker {
    var state: CbState
    var errors: nat
    var openedAt: nat
    const threshold: nat
    const recoveryMs: nat

    constructor (threshold: nat, recoveryMs: nat)
      ensures Value() == FRESH && this.threshold == threshold && this.recoveryMs == recoveryMs
    {
      state, errors, openedAt := Closed, 0, 0;
      this.threshold, this.recoveryMs := threshold, recoveryMs;
    }

    function Value(): Breaker
      reads this
    {
      Breaker(state, errors, openedAt)
    }

    method Allows(now: nat) returns (ok: bool)
      modifies this
      ensures (ok, Value()) == old(Value()).Admit(now, recoveryMs)
    {
      match state {
        case Closed => ok := true;
        case HalfOpen => ok := true;
        case Open =>
          if Monus(now, openedAt) >= recoveryMs {
            state := HalfOpen;
            ok := true;
          } else {
            ok := false;
          }
      }
    }

    method RecordSuccess()
      modifies this
      ensures Value() == old(Value()).Succeed()
    {
      errors := 0;
      if state != Closed { state := Closed; }
    }

    method RecordFailure(now: nat)
      modifies this
      ensures Value() == old(Value()).Fail(now, threshold)
    {
      match state {
        case Closed =>
          errors := errors + 1;
          if errors >= threshold { Trip(now); }
        case HalfOpen => Trip(now);
        case Open =>
      }
    }

    /** `open` */
    method Trip(now: nat)
      modifies this
      ensures Value() == Breaker(Open, 0, now)
    {
      state := Open;
      openedAt := now;
      errors := 0;
    }
  }

  // ---------------------------------------------------------------- histories

  datatype Event = Success | Failure(at: nat) | Ask(at: nat)

  function Advance(b: Breaker, e: Event, threshold: nat, recoveryMs: nat): Breaker {
    match e
    case Success => b.Succeed()
    case Failure(now) => b.Fail(now, threshold)
    case Ask(now) => b.Admit(now, recoveryMs).1
  }

  function Replay(h: seq<Event>, threshold: nat, recoveryMs: nat): Breaker {
    if h == [] then FRESH
    else Advance(Replay(h[..|h| - 1], threshold, recoveryMs), h[|h| - 1], threshold, recoveryMs)
  }

  /** Failures since the last success; asking does not count. */
  function FailuresSinceSuccess(h: seq<Event>): nat {
    if h == [] then 0
    else
      match h[|h| - 1]
      case Success => 0
      case Failure(_) => FailuresSinceSuccess(h[..|h| - 1]) + 1
      case Ask(_) => FailuresSinceSuccess(h[..|h| - 1])
  }

  /** The breaker is closed exactly while fewer than `max(1, threshold)` failures follow the last
      success, whenever it was asked, and while it is closed its counter is that number. */
  lemma {:induction false} ClosedIff(h: seq<Event>, threshold: nat, recoveryMs: nat)
    ensures var b := Replay(h, threshold, recoveryMs);
            && (b.state == Closed <==> FailuresSinceSuccess(h) < Max(1, threshold))
            && b.errors == if b.state == Closed then FailuresSinceSuccess(h) else 0
  {
    if h != [] { ClosedIff(h[..|h| - 1], threshold, recoveryMs); }
  }

  // ---------------------------------------------------------------- probes

  /** The call at position `j` of the history was let through. */
  predicate Admitted(h: seq<Event>, j: nat, threshold: nat, recoveryMs: nat) {
    j < |h| && h[j].Ask? && Replay(h[..j], threshold, recoveryMs).Admit(h[j].at, recoveryMs).0
  }

  /** The breaker is half-open exactly right after a call let through with the failures at the threshold. */
  lemma {:induction false} HalfOpenIff(h: seq<Event>, threshold: nat, recoveryMs: nat)
    ensures Replay(h, threshold, recoveryMs).state == HalfOpen <==>
            && h != [] && Admitted(h, |h| - 1, threshold, recoveryMs)
            && FailuresSinceSuccess(h) >= Max(1, threshold)
  {
    if h != [] {
      ClosedIff(h[..|h| - 1], threshold, recoveryMs);
      ClosedIff(h, threshold, recoveryMs);
      hide Replay, FailuresSinceSuccess;
      assert Replay(h, threshold, recoveryMs) ==
             Advance(Replay(h[..|h| - 1], threshold, recoveryMs), h[|h| - 1], threshold, recoveryMs) by {
        ReplayLast(h, threshold, recoveryMs);
      }
    }
  }

  lemma {:induction false} ReplayLast(h: seq<Event>, threshold: nat, recoveryMs: nat)
    requires h != []
    ensures Replay(h, threshold, recoveryMs) ==
            Advance(Replay(h[..|h| - 1], threshold, recoveryMs), h[|h| - 1], threshold, recoveryMs)
  {
  }

  /** From the call that finds the recovery time over until the next recorded outcome, every call is let
      through: the half-open state admits any number of probes. */
  lemma {:induction false} ProbesUntilOutcome(
      h: seq<Event>, asks: seq<Event>, now: nat, threshold: nat, recoveryMs: nat)
    requires h != [] && Admitted(h, |h| - 1, threshold, recoveryMs)
    requires FailuresSinceSuccess(h) >= Max(1, threshold)
    requires forall e :: e in asks ==> e.Ask?
    ensures Replay(h + asks, threshold, recoveryMs).state == HalfOpen
    ensures Replay(h + asks, threshold, recoveryMs).Admit(now, recoveryMs).0
    decreases |asks|
  {
    if asks == [] {
      assert h + asks == h;
      HalfOpenIff(h, threshold, recoveryMs);
    } else {
      var n := |asks| - 1;
      assert asks[n] in asks && forall e :: e in asks[..n] ==> e in asks;
      ProbesUntilOutcome(h, asks[..n], now, threshold, recoveryMs);
      assert (h + asks)[..|h + asks| - 1] == h + asks[..n];
    }
  }

  /** Threshold 1 and a recovery time of 10: two calls are let through before any outcome is recorded. */
  lemma {:induction false} TwoProbes()
    ensures var h := [Failure(0), Ask(10), Ask(10)];
            Admitted(h, 1, 1, 10) && Admitted(h, 2, 1, 10) && Replay(h, 1, 10).state == HalfOpen
  {
    var h := [Failure(0), Ask(10), Ask(10)];
    assert h[..1] == [Failure(0)] && h[..1][..0] == [] && h[..2][..1] == h[..1] && h[..3] == h;
    assert Replay(h[..1], 1, 10) == Breaker(Open, 0, 0);
    assert Replay(h[..2], 1, 10) == Breaker(HalfOpen, 0, 0);
  }

  // ---------------------------------------------------------------- refusals

  /** The failure at position `i` brings the failures to the threshold, or follows a probe. */
  predicate Trips(h: seq<Event>, i: nat, threshold: nat, recoveryMs: nat) {
    && i < |h| && h[i].Failure?
    && (|| FailuresSinceSuccess(h[..i + 1]) == Max(1, threshold)
        || (FailuresSinceSuccess(h[..i + 1]) > Max(1, threshold) && i > 0 && Admitted(h, i - 1, threshold, recoveryMs)))
  }

  /** Since then nothing succeeded and no call came a recovery time later. */
  predicate HoldsSince(h: seq<Event>, i: nat, recoveryMs: nat)
    requires i < |h| && h[i].Failure?
  {
    forall j :: i < j < |h| ==> h[j] != Success && (h[j].Ask? ==> Monus(h[j].at, h[i].at) < recoveryMs)
  }

  predicate OpenedAt(h: seq<Event>, i: nat, threshold: nat, recoveryMs: nat) {
    i < |h| && h[i].Failure? && Trips(h, i, threshold, recoveryMs) && HoldsSince(h, i, recoveryMs)
  }

  lemma {:induction false} OpenedAtGrows(h: seq<Event>, i: nat, threshold: nat, recoveryMs: nat)
    requires h != [] && i < |h| - 1
    ensures var front, e := h[..|h| - 1], h[|h| - 1];
            OpenedAt(h, i, threshold, recoveryMs) <==>
            && OpenedAt(front, i, threshold, recoveryMs) && e != Success
            && (e.Ask? ==> Monus(e.at, h[i].at) < recoveryMs)
  {
    var front := h[..|h| - 1];
    assert front[..i + 1] == h[..i + 1];
    assert i > 0 ==> front[..i - 1] == h[..i - 1];
    assert forall j :: 0 <= j < |front| ==> front[j] == h[j];
    hide Replay, FailuresSinceSuccess;
  }

  lemma {:induction false} TripsOpens(h: seq<Event>, threshold: nat, recoveryMs: nat)
    requires h != []
    ensures var n := |h| - 1;
            Trips(h, n, threshold, recoveryMs) <==>
            h[n].Failure? && Replay(h[..n], threshold, recoveryMs).state != Open
            && Replay(h, threshold, recoveryMs).state == Open
    ensures var n := |h| - 1;
            Trips(h, n, threshold, recoveryMs) ==> Replay(h, threshold, recoveryMs).openedAt == h[n].at
  {
    var n := |h| - 1;
    var front := h[..n];
    assert h[..n + 1] == h;
    assert n > 0 ==> front[..n - 1] == h[..n - 1];
    ClosedIff(front, threshold, recoveryMs);
    HalfOpenIff(front, threshold, recoveryMs);
    ReplayLast(h, threshold, recoveryMs);
    assert h[n].Failure? ==> FailuresSinceSuccess(h) == FailuresSinceSuccess(front) + 1;
    hide Replay, FailuresSinceSuccess;
  }

  /** Such a failure leaves the breaker open, with its time remembered. */
  lemma {:induction false} OpenSince(h: seq<Event>, i: nat, threshold: nat, recoveryMs: nat)
    requires OpenedAt(h, i, threshold, recoveryMs)
    ensures Replay(h, threshold, recoveryMs).state == Open
    ensures Replay(h, threshold, recoveryMs).openedAt == h[i].at
    decreases |h|
  {
    hide Replay, Trips, HoldsSince;
    if i == |h| - 1 {
      TripsOpens(h, threshold, recoveryMs);
    } else {
      OpenedAtGrows(h, i, threshold, recoveryMs);
      OpenSince(h[..|h| - 1], i, threshold, recoveryMs);
      ReplayLast(h, threshold, recoveryMs);
    }
  }

  /** And an open breaker was opened by one. */
  lemma {:induction false} OpenedBy(h: seq<Event>, threshold: nat, recoveryMs: nat) returns (i: nat)
    requires Replay(h, threshold, recoveryMs).state == Open
    ensures OpenedAt(h, i, threshold, recoveryMs)
  {
    assert h != [];
    hide Replay, Trips, HoldsSince;
    var front := h[..|h| - 1];
    ReplayLast(h, threshold, recoveryMs);
    TripsOpens(h, threshold, recoveryMs);
    if Replay(front, threshold, recoveryMs).state == Open {
      i := OpenedBy(front, threshold, recoveryMs);
      OpenSince(front, i, threshold, recoveryMs);
      OpenedAtGrows(h, i, threshold, recoveryMs);
    } else {
      i := |h| - 1;
      NothingSince(h, recoveryMs);
    }
  }

  lemma {:induction false} NothingSince(h: seq<Event>, recoveryMs: nat)
    requires h != [] && h[|h| - 1].Failure?
    ensures HoldsSince(h, |h| - 1, recoveryMs)
  {
  }

  /** Traffic is refused exactly within the recovery time of a failure that reached the threshold or
      followed a probe, as long as nothing succeeded and no call came later than that since. */
  lemma {:induction false} RefusalIff(h: seq<Event>, now: nat, threshold: nat, recoveryMs: nat)
    ensures !Replay(h, threshold, recoveryMs).Admit(now, recoveryMs).0 <==>
            exists i: nat :: OpenedAt(h, i, threshold, recoveryMs) && Monus(now, h[i].at) < recoveryMs
  {
    hide Replay, Trips, HoldsSince;
    if !Replay(h, threshold, recoveryMs).Admit(now, recoveryMs).0 {
      var i := OpenedBy(h, threshold, recoveryMs);
      OpenSince(h, i, threshold, recoveryMs);
    }
    if i: nat :| OpenedAt(h, i, threshold, recoveryMs) && Monus(now, h[i].at) < recoveryMs {
      OpenSince(h, i, threshold, recoveryMs);
    }
  }

  /** Some failure recorded at time `t` has no success after it. */
  ghost predicate FailedAt(h: seq<Event>, t: nat) {
    exists i :: 0 <= i < |h| && h[i] == Failure(t) && Success !in h[i + 1..]
  }

  /** In particular, only within the recovery time of a failure that no success followed. */
  lemma {:induction false} RefusalHasRecentFailure(h: seq<Event>, now: nat, threshold: nat, recoveryMs: nat)
    requires !Replay(h, threshold, recoveryMs).Admit(now, recoveryMs).0
    ensures exists t :: FailedAt(h, t) && Monus(now, t) < recoveryMs
    ensures FailuresSinceSuccess(h) >= Max(1, threshold)
  {
    RefusalIff(h, now, threshold, recoveryMs);
    var i: nat :| OpenedAt(h, i, threshold, recoveryMs) && Monus(now, h[i].at) < recoveryMs;
    assert h[i] == Failure(h[i].at) && Success !in h[i + 1..];
    assert FailedAt(h, h[i].at);
    ClosedIff(h, threshold, recoveryMs);
  }
}
