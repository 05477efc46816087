/** Choosing a replica: weighted round-robin over the healthy replicas whose breakers allow traffic,
    then the rest of them in order, then the backups, then the primary. */
module ReplicaScheduler {
  import opened Prelude
  import opened CircuitBreaker

  /** Configured weights are 32-bit, and a candidate's is at least one. */
  type ConfiguredWeight = n: int | 0 <= n < U32
  type Weight = n: int | 0 < n < U32 witness 1

  /** A replica's index and its weight, at least one. */
  datatype Candidate = Candidate(idx: nat, weight: Weight)

  // ---------------------------------------------------------------- weighted choice

  function Total(cs: seq<Candidate>): (t: nat)
    ensures cs != [] ==> t > 0
  {
    if cs == [] then 0 else cs[0].weight + Total(cs[1..])
  }

  /** The candidate whose stretch of slots holds `slot`. */
  function Pick(cs: seq<Candidate>, slot: nat): Option<nat> {
    if cs == [] then None
    else if slot < cs[0].weight then Some(cs[0].idx)
    else Pick(cs[1..], slot - cs[0].weight)
  }

  predicate Distinct(cs: seq<Candidate>) {
    forall i, j :: 0 <= i < j < |cs| ==> cs[i].idx != cs[j].idx
  }

  /** Candidates come in the order of the replicas. */
  predicate InOrder(cs: seq<Candidate>) {
    forall i, j :: 0 <= i < j < |cs| ==> cs[i].idx < cs[j].idx
  }

  /** Every slot below the total has a candidate: the default choice is never needed. */
  lemma {:induction false} SlotsAreTaken(cs: seq<Candidate>, slot: nat)
    requires slot < Total(cs)
    ensures Pick(cs, slot).Some?
    decreases cs
  {
    if slot >= cs[0].weight { SlotsAreTaken(cs[1..], slot - cs[0].weight); }
  }

  /** The weights add up in 32 bits, as in a release build. */
  function Total32(cs: seq<Candidate>): nat { Total(cs) % U32 }

  /** The accumulating search for `slot`, in 32 bits, from `acc` on. */
  function Search(cs: seq<Candidate>, acc: nat, slot: nat): Option<nat> {
    if cs == [] then None
    else
      var acc' := (acc + cs[0].weight) % U32;
      if slot < acc' then Some(cs[0].idx) else Search(cs[1..], acc', slot)
  }

  /** However the sums wrap, a slot below the wrapped total is found. */
  lemma {:induction false} SearchFinds(cs: seq<Candidate>, acc: nat, slot: nat)
    requires acc <= slot < (acc + Total(cs)) % U32
    ensures Search(cs, acc, slot).Some? && exists i :: 0 <= i < |cs| && Search(cs, acc, slot) == Some(cs[i].idx)
    decreases cs
  {
    assert acc % U32 <= acc;
    if cs != [] {
      var acc' := (acc + cs[0].weight) % U32;
      if slot >= acc' {
        WrapTwice(acc + cs[0].weight, Total(cs[1..]));
        SearchFinds(cs[1..], acc', slot);
        var i :| 0 <= i < |cs[1..]| && Search(cs, acc, slot) == Some(cs[1..][i].idx);
        assert cs[i + 1].idx == cs[1..][i].idx;
      }
    }
  }

  lemma {:induction false} WrapTwice(a: nat, b: nat)
    ensures (a % U32 + b) % U32 == (a + b) % U32
  {
  }

  /** As long as the weights fit 32 bits, the search is the choice by stretches of slots. */
  lemma {:induction false} SearchIsPick(cs: seq<Candidate>, acc: nat, slot: nat)
    requires acc <= slot && acc + Total(cs) < U32
    ensures Search(cs, acc, slot) == Pick(cs, slot - acc)
    decreases cs
  {
    if cs != [] && slot >= acc + cs[0].weight { SearchIsPick(cs[1..], acc + cs[0].weight, slot); }
  }

  /** The choice for this counter value.  The source divides by the 32-bit total and panics when that is
      zero; there the function gives the first candidate, and the methods require otherwise. */
  function Chosen(cs: seq<Candidate>, counter: nat): (chosen: nat)
    requires cs != []
    ensures Among(cs, chosen)
  {
    var total := Total32(cs);
    if total == 0 then
      assert Among(cs, cs[0].idx);
      cs[0].idx
    else
      SearchFinds(cs, 0, counter % total);
      Search(cs, 0, counter % total).value
  }

  lemma {:induction false} ChosenIsPick(cs: seq<Candidate>, counter: nat)
    requires cs != [] && Total(cs) < U32
    ensures Pick(cs, counter % Total(cs)) == Some(Chosen(cs, counter))
  {
    SearchIsPick(cs, 0, counter % Total(cs));
    SlotsAreTaken(cs, counter % Total(cs));
    hide Search, Pick;
  }

  /** The accumulating loop of the scheduler, with its default, in 32-bit arithmetic. */
  method Choose(cs: seq<Candidate>, counter: nat) returns (chosen: nat)
    requires cs != [] && Total(cs) % U32 != 0
    ensures chosen == Chosen(cs, counter)
    ensures Total(cs) < U32 ==> Pick(cs, counter % Total(cs)) == Some(chosen)
  {
    if Total(cs) < U32 { ChosenIsPick(cs, counter); }
    var total := SumWeights(cs);
    var slot := counter % total;
    var acc := 0;
    chosen := cs[0].idx;
    SearchFinds(cs, 0, slot);
    assert cs[0..] == cs;
    for k := 0 to |cs|
      invariant 0 <= acc && Search(cs, 0, slot) == Search(cs[k..], acc, slot)
    {
      assert cs[k..][1..] == cs[k + 1..];
      acc := (acc + cs[k].weight) % U32;
      if slot < acc {
        chosen := cs[k].idx;
        return;
      }
    }
  }

  method SumWeights(cs: seq<Candidate>) returns (total: nat)
    ensures total == Total32(cs)
  {
    total := 0;
    assert cs[0..] == cs;
    for k := 0 to |cs|
      invariant total < U32 && (total + Total(cs[k..])) % U32 == Total32(cs)
    {
      assert cs[k..][1..] == cs[k + 1..];
      WrapTwice(total + cs[k].weight, Total(cs[k + 1..]));
      total := (total + cs[k].weight) % U32;
    }
  }

  // ---------------------------------------------------------------- fairness

  /** How many of the `n` slots from `lo` on go to `idx`. */
  function SlotsOf(cs: seq<Candidate>, idx: nat, lo: nat, n: nat): nat {
    if n == 0 then 0
    else SlotsOf(cs, idx, lo, n - 1) + if Pick(cs, lo + n - 1) == Some(idx) then 1 else 0
  }

  lemma {:induction false} SlotsSplit(cs: seq<Candidate>, idx: nat, lo: nat, n: nat, m: nat)
    ensures SlotsOf(cs, idx, lo, n + m) == SlotsOf(cs, idx, lo, n) + SlotsOf(cs, idx, lo + n, m)
    decreases m
  {
    if m > 0 { SlotsSplit(cs, idx, lo, n, m - 1); }
  }

  lemma {:induction false} SlotsOfHead(cs: seq<Candidate>, idx: nat, n: nat)
    requires cs != [] && n <= cs[0].weight
    ensures SlotsOf(cs, idx, 0, n) == if idx == cs[0].idx then n else 0
    decreases n
  {
    if n > 0 { SlotsOfHead(cs, idx, n - 1); }
  }

  lemma {:induction false} SlotsOfTail(cs: seq<Candidate>, idx: nat, n: nat)
    requires cs != []
    ensures SlotsOf(cs, idx, cs[0].weight, n) == SlotsOf(cs[1..], idx, 0, n)
    decreases n
  {
    if n > 0 { SlotsOfTail(cs, idx, n - 1); }
  }

  lemma {:induction false} NoSlots(cs: seq<Candidate>, idx: nat, n: nat)
    requires forall i :: 0 <= i < |cs| ==> cs[i].idx != idx
    requires n <= Total(cs)
    ensures SlotsOf(cs, idx, 0, n) == 0
    decreases n
  {
    if n > 0 {
      NoSlots(cs, idx, n - 1);
      PickIsCandidate(cs, n - 1);
    }
  }

  lemma {:induction false} PickIsCandidate(cs: seq<Candidate>, slot: nat)
    ensures Pick(cs, slot).Some? ==> exists i :: 0 <= i < |cs| && Pick(cs, slot) == Some(cs[i].idx)
    decreases cs
  {
    if cs != [] && slot >= cs[0].weight {
      PickIsCandidate(cs[1..], slot - cs[0].weight);
      if Pick(cs, slot).Some? {
        var i :| 0 <= i < |cs[1..]| && Pick(cs, slot) == Some(cs[1..][i].idx);
        assert cs[i + 1].idx == cs[1..][i].idx;
      }
    }
  }

  /** One pass over the slots gives every candidate exactly its weight. */
  lemma {:induction false} SlotsAreWeights(cs: seq<Candidate>, i: nat)
    requires i < |cs| && Distinct(cs)
    ensures SlotsOf(cs, cs[i].idx, 0, Total(cs)) == cs[i].weight
    decreases cs
  {
    var w, rest := cs[0].weight, Total(cs[1..]);
    SlotsSplit(cs, cs[i].idx, 0, w, rest);
    SlotsOfHead(cs, cs[i].idx, w);
    SlotsOfTail(cs, cs[i].idx, rest);
    assert forall j :: 0 <= j < |cs[1..]| ==> cs[1..][j] == cs[j + 1];
    if i == 0 {
      NoSlots(cs[1..], cs[0].idx, rest);
    } else {
      SlotsAreWeights(cs[1..], i - 1);
    }
  }

  /** The slot the counter value `k` stands for: the counter wraps at 2^64. */
  function Slot(k: nat, total: nat): nat
    requires total > 0
  {
    k % U64 % total
  }

  /** How many of the `n` counter values from `c` on choose `idx`; the counter wraps at 2^64. */
  function ChosenTimes(cs: seq<Candidate>, idx: nat, c: nat, n: nat): nat
    requires cs != []
  {
    if n == 0 then 0
    else ChosenTimes(cs, idx, c, n - 1) + if Chosen(cs, (c + n - 1) % U64) == idx then 1 else 0
  }

  lemma {:induction false} ChosenTimesFirst(cs: seq<Candidate>, idx: nat, c: nat, n: nat)
    requires cs != [] && n > 0
    ensures ChosenTimes(cs, idx, c, n) ==
            (if Chosen(cs, c % U64) == idx then 1 else 0) + ChosenTimes(cs, idx, c + 1, n - 1)
    decreases n
  {
    hide Chosen;
    if n > 1 { ChosenTimesFirst(cs, idx, c, n - 1); }
  }

  lemma {:induction false} FirstSlots(k: nat, total: nat)
    requires k < total < U64
    ensures Slot(k, total) == k
  {
    ModIs(k, 0, total, k);
  }

  lemma {:induction false} FirstPass(cs: seq<Candidate>, idx: nat, n: nat)
    requires cs != [] && n <= Total(cs) < U32
    ensures ChosenTimes(cs, idx, 0, n) == SlotsOf(cs, idx, 0, n)
    decreases n
  {
    if n > 0 {
      FirstPass(cs, idx, n - 1);
      FirstSlots(n - 1, Total(cs));
      ChosenIsPick(cs, (n - 1) % U64);
      hide Chosen, Pick;
    }
  }

  lemma {:induction false} SmallMultiple(d: int, w: int)
    requires 0 < w && -w < d * w < w
    ensures d == 0
  {
    assert d >= 1 ==> d * w >= w;
    assert d <= -1 ==> d * w <= -w;
  }

  lemma {:induction false} ModIs(a: int, k: int, t: int, x: int)
    requires t > 0 && a == k * t + x && 0 <= x < t
    ensures a % t == x
  {
    var q := a / t;
    assert (q - k) * t == x - a % t by {
      assert a == q * t + a % t;
      assert (q - k) * t == q * t - k * t;
    }
    SmallMultiple(q - k, t);
  }

  lemma {:induction false} SlotRepeats(c: nat, w: nat)
    requires w > 0 && c + w < U64
    ensures Slot(c + w, w) == Slot(c, w)
  {
    NextMultiple(c, w);
  }

  lemma {:induction false} NextMultiple(c: nat, t: nat)
    requires t > 0
    ensures (c + t) % t == c % t
  {
    assert c == c / t * t + c % t;
    assert (c / t + 1) * t == c / t * t + t;
    ModIs(c + t, c / t + 1, t, c % t);
  }

  lemma {:induction false} ChoiceRepeats(cs: seq<Candidate>, c: nat)
    requires cs != [] && Total32(cs) > 0 && c + Total32(cs) < U64
    ensures Chosen(cs, (c + Total32(cs)) % U64) == Chosen(cs, c % U64)
  {
    SlotRepeats(c, Total32(cs));
    hide Search, Total32;
  }

  /** Moving the window on by one drops a choice and takes in the same choice again, wrapped or not. */
  lemma {:induction false} WindowMoves(cs: seq<Candidate>, idx: nat, c: nat)
    requires cs != [] && Total32(cs) > 0 && c + Total32(cs) <= U64
    ensures ChosenTimes(cs, idx, c, Total32(cs)) == ChosenTimes(cs, idx, 0, Total32(cs))
    decreases c
  {
    if c > 0 {
      var w := Total32(cs);
      hide Chosen, Total32;
      WindowMoves(cs, idx, c - 1);
      ChosenTimesFirst(cs, idx, c - 1, w);
      ChoiceRepeats(cs, c - 1);
    }
  }

  /** For a fixed candidate list of total weight W, any W consecutive counter values without wraparound
      choose each candidate exactly its weight's number of times. */
  lemma {:induction false} WeightedFairness(cs: seq<Candidate>, i: nat, c: nat)
    requires i < |cs| && Distinct(cs)
    requires Total(cs) < U32 && c + Total(cs) <= U64
    ensures ChosenTimes(cs, cs[i].idx, c, Total(cs)) == cs[i].weight
  {
    hide ChosenTimes, SlotsOf, Total, Total32;
    TotalFits(cs);
    WindowMoves(cs, cs[i].idx, c);
    FirstPass(cs, cs[i].idx, Total(cs));
    SlotsAreWeights(cs, i);
  }

  lemma {:induction false} TotalFits(cs: seq<Candidate>)
    requires cs != [] && Total(cs) < U32
    ensures Total32(cs) == Total(cs) > 0
  {
  }

  /** The choices of the first `k` candidates in the window. */
  function ChosenTogether(cs: seq<Candidate>, k: nat, c: nat, n: nat): nat
    requires cs != [] && k <= |cs|
  {
    if k == 0 then 0 else ChosenTogether(cs, k - 1, c, n) + ChosenTimes(cs, cs[k - 1].idx, c, n)
  }

  predicate AmongFirst(cs: seq<Candidate>, k: nat, idx: nat)
    requires k <= |cs|
  {
    exists i :: 0 <= i < k && cs[i].idx == idx
  }

  /** One more counter value adds one choice to one candidate. */
  lemma {:induction false} OneChoiceMore(cs: seq<Candidate>, k: nat, c: nat, n: nat)
    requires cs != [] && k <= |cs| && Distinct(cs) && n > 0
    ensures ChosenTogether(cs, k, c, n) == ChosenTogether(cs, k, c, n - 1) +
            if AmongFirst(cs, k, Chosen(cs, (c + n - 1) % U64)) then 1 else 0
    decreases k
  {
    hide Chosen;
    if k > 0 {
      OneChoiceMore(cs, k - 1, c, n);
      var chosen := Chosen(cs, (c + n - 1) % U64);
      if cs[k - 1].idx == chosen {
        assert AmongFirst(cs, k, chosen) && !AmongFirst(cs, k - 1, chosen);
      } else {
        assert AmongFirst(cs, k, chosen) == AmongFirst(cs, k - 1, chosen);
      }
    }
  }

  lemma {:induction false} NoMoreThanWindow(cs: seq<Candidate>, k: nat, c: nat, n: nat)
    requires cs != [] && k <= |cs| && Distinct(cs)
    ensures ChosenTogether(cs, k, c, n) <= n
    decreases n
  {
    if n > 0 {
      NoMoreThanWindow(cs, k, c, n - 1);
      OneChoiceMore(cs, k, c, n);
    } else {
      NoChoices(cs, k, c);
    }
  }

  lemma {:induction false} NoChoices(cs: seq<Candidate>, k: nat, c: nat)
    requires cs != [] && k <= |cs|
    ensures ChosenTogether(cs, k, c, 0) == 0
  {
    if k > 0 { NoChoices(cs, k - 1, c); }
  }

  lemma {:induction false} WeightsTogether(cs: seq<Candidate>, k: nat, c: nat, n: nat)
    requires cs != [] && k <= |cs|
    requires forall i :: 0 <= i < |cs| ==> ChosenTimes(cs, cs[i].idx, c, n) == cs[i].weight
    ensures ChosenTogether(cs, k, c, n) == Total(cs[..k])
    decreases k
  {
    hide ChosenTimes;
    if k > 0 {
      WeightsTogether(cs, k - 1, c, n);
      TotalSnoc(cs[..k - 1], cs[k - 1]);
      assert cs[..k] == cs[..k - 1] + [cs[k - 1]];
    }
  }

  lemma {:induction false} TotalSnoc(cs: seq<Candidate>, c: Candidate)
    ensures Total(cs + [c]) == Total(cs) + c.weight
  {
    if cs == [] {
      assert cs + [c] == [c] && [c][1..] == [];
    } else {
      assert (cs + [c])[1..] == cs[1..] + [c];
      TotalSnoc(cs[1..], c);
    }
  }

  /** A window as long as the 32-bit total that does not cross the wrap of the counter gives every
      candidate its weight exactly when the weights add up to less than 2^32: a wrapped total is too short
      for them. */
  lemma {:induction false} FairIff(cs: seq<Candidate>, c: nat)
    requires cs != [] && Distinct(cs) && Total32(cs) > 0 && c + Total32(cs) <= U64
    ensures (forall i :: 0 <= i < |cs| ==> ChosenTimes(cs, cs[i].idx, c, Total32(cs)) == cs[i].weight)
            <==> Total(cs) < U32
  {
    hide ChosenTimes, Distinct;
    assert cs[..|cs|] == cs;
    if Total(cs) < U32 {
      forall i | 0 <= i < |cs| ensures ChosenTimes(cs, cs[i].idx, c, Total32(cs)) == cs[i].weight {
        WeightedFairness(cs, i, c);
      }
    } else if forall i :: 0 <= i < |cs| ==> ChosenTimes(cs, cs[i].idx, c, Total32(cs)) == cs[i].weight {
      WeightsTogether(cs, |cs|, c, Total32(cs));
      NoMoreThanWindow(cs, |cs|, c, Total32(cs));
      assert false;
    }
  }

  // ---------------------------------------------------------------- fairness across the wrap of the counter

  /** The window from counter value `c` on, wrapping at 2^64, gives every candidate its weight. */
  predicate FairAt(cs: seq<Candidate>, c: nat)
    requires cs != []
  {
    forall i :: 0 <= i < |cs| ==> ChosenTimes(cs, cs[i].idx, c, Total32(cs)) == cs[i].weight
  }

  /** A remainder modulo a multiple of `t` keeps the remainder modulo `t`. */
  lemma {:induction false} ModOfMultiple(x: nat, m: nat, t: nat)
    requires t > 0 && m > 0 && m % t == 0
    ensures x % m % t == x % t
  {
    var q, k, y := x / m, m / t, x % m;
    assert m == k * t;
    assert x == (q * k + y / t) * t + y % t by {
      assert x == q * m + y && y == y / t * t + y % t;
      assert q * m == q * k * t;
      assert (q * k + y / t) * t == q * k * t + y / t * t;
    }
    ModIs(x, q * k + y / t, t, y % t);
  }

  lemma {:induction false} WindowStep(cs: seq<Candidate>, idx: nat, c: nat, n: nat)
    requires cs != [] && n > 0
    ensures ChosenTimes(cs, idx, c + 1, n) + (if Chosen(cs, c % U64) == idx then 1 else 0) ==
            ChosenTimes(cs, idx, c, n) + if Chosen(cs, (c + n) % U64) == idx then 1 else 0
  {
    hide Chosen;
    ChosenTimesFirst(cs, idx, c, n);
  }

  /** When the total divides 2^64 the wrap goes unnoticed. */
  lemma {:induction false} FairWhenDividing(cs: seq<Candidate>, c: nat)
    requires cs != [] && Distinct(cs) && Total(cs) < U32 && U64 % Total(cs) == 0
    ensures FairAt(cs, c)
    decreases c
  {
    hide Chosen, ChosenTimes, Total, Distinct;
    TotalFits(cs);
    if c == 0 {
      FairIff(cs, 0);
    } else {
      FairWhenDividing(cs, c - 1);
      SameSlot(c - 1, Total(cs));
      SameChoice(cs, (c - 1) % U64, (c - 1 + Total(cs)) % U64);
      forall i | 0 <= i < |cs| ensures ChosenTimes(cs, cs[i].idx, c, Total32(cs)) == cs[i].weight {
        WindowStep(cs, cs[i].idx, c - 1, Total32(cs));
      }
    }
  }

  lemma {:induction false} SameSlot(c: nat, t: nat)
    requires t > 0 && U64 % t == 0
    ensures c % U64 % t == (c + t) % U64 % t
  {
    ModOfMultiple(c, U64, t);
    ModOfMultiple(c + t, U64, t);
    NextMultiple(c, t);
  }

  lemma {:induction false} SameChoice(cs: seq<Candidate>, a: nat, b: nat)
    requires cs != [] && Total32(cs) > 0 && a % Total32(cs) == b % Total32(cs)
    ensures Chosen(cs, a) == Chosen(cs, b)
  {
    hide Search, Total32;
  }

  lemma {:induction false} AloneIsFair(cs: seq<Candidate>, c: nat, n: nat)
    requires |cs| == 1
    ensures ChosenTimes(cs, cs[0].idx, c, n) == n
    decreases n
  {
    if n > 0 {
      AloneIsFair(cs, c, n - 1);
      var k :| 0 <= k < |cs| && cs[k].idx == Chosen(cs, (c + n - 1) % U64);
    }
  }

  /** The first candidate's stretch of slots. */
  lemma {:induction false} PickFirst(cs: seq<Candidate>, slot: nat)
    requires cs != [] && Distinct(cs)
    ensures Pick(cs, slot) == Some(cs[0].idx) <==> slot < cs[0].weight
  {
    if slot >= cs[0].weight {
      PickIsCandidate(cs[1..], slot - cs[0].weight);
      assert forall i :: 0 <= i < |cs[1..]| ==> cs[1..][i].idx == cs[i + 1].idx != cs[0].idx;
    }
  }

  /** Where the total leaves the remainder `r` of 2^64, slot `j` follows slot `r + j` once per wrap. */
  lemma {:induction false} SlotBeforeWrap(t: nat, j: nat)
    requires 0 < t < U32 && U64 % t + j < t
    ensures (U64 - t + j) % U64 % t == U64 % t + j && (U64 - t + j + t) % U64 % t == j
  {
    var q, r := U64 / t, U64 % t;
    assert U64 - t + j == (q - 1) * t + (r + j) by {
      assert U64 == q * t + r;
      assert (q - 1) * t == q * t - t;
    }
    ModIs(U64 - t + j, q - 1, t, r + j);
    ModIs(U64 - t + j, 0, U64, U64 - t + j);
    ModIs(U64 + j, 1, U64, j);
    ModIs(j, 0, t, j);
  }

  /** Some slot of the first candidate follows a slot of another, `r` slots on. */
  function Clash(w: nat, r: nat, t: nat): (j: nat)
    requires 0 < r < t && 0 < w < t
    ensures j < w <= r + j < t
  {
    if r + w - 1 < t then w - 1 else t - r - 1
  }

  lemma {:induction false} UnfairAtWrap(cs: seq<Candidate>)
    requires |cs| > 1 && Distinct(cs) && Total(cs) < U32 && U64 % Total(cs) != 0
    ensures exists c: nat :: !FairAt(cs, c)
  {
    hide Chosen, ChosenTimes, Pick;
    var t, w := Total(cs), cs[0].weight;
    TotalFits(cs);
    assert w < t by { assert cs[1..] != []; }
    var r := U64 % t;
    var j := Clash(w, r, t);
    var c: nat := U64 - t + j;
    SlotBeforeWrap(t, j);
    ChosenIsPick(cs, c % U64);
    ChosenIsPick(cs, (c + t) % U64);
    PickFirst(cs, r + j);
    PickFirst(cs, j);
    hide Total, Distinct;
    WindowStep(cs, cs[0].idx, c, t);
    assert !FairAt(cs, c) || !FairAt(cs, c + 1);
  }

  /** Every window as long as the 32-bit total, those across the wrap of the counter included, gives every
      candidate its weight exactly when the weights add up to less than 2^32 and there is one candidate
      only or the total divides 2^64. */
  lemma {:induction false} FairEverywhereIff(cs: seq<Candidate>)
    requires cs != [] && Distinct(cs) && Total32(cs) > 0
    ensures (forall c: nat :: FairAt(cs, c)) <==> Total(cs) < U32 && (|cs| == 1 || U64 % Total(cs) == 0)
  {
    hide Chosen, ChosenTimes, Distinct;
    FairIff(cs, 0);
    assert FairAt(cs, 0) <==> Total(cs) < U32;
    if Total(cs) < U32 {
      if |cs| == 1 {
        assert Total(cs[1..]) == 0;
        forall c: nat ensures FairAt(cs, c) { AloneIsFair(cs, c, Total32(cs)); }
      } else if U64 % Total(cs) == 0 {
        forall c: nat ensures FairAt(cs, c) { FairWhenDividing(cs, c); }
      } else {
        UnfairAtWrap(cs);
      }
    }
  }

  /** Three candidates of weight one: the window at the last counter value is unfair. */
  lemma {:induction false} ThreeAtTheWrap()
    ensures var cs := [Candidate(0, 1), Candidate(1, 1), Candidate(2, 1)]; ChosenTimes(cs, 0, U64 - 1, 3) == 2
  {
    var cs := [Candidate(0, 1), Candidate(1, 1), Candidate(2, 1)];
    TotalOfThree(cs[0], cs[1], cs[2]);
    ThreeSlots();
    ChosenIsPick(cs, U64 - 1);
    ChosenIsPick(cs, 0);
    ChosenIsPick(cs, 1);
    PickFirst(cs, 0);
    PickFirst(cs, 1);
    hide Chosen, Total;
    ThreeTimes(cs, 0, U64 - 1);
  }

  lemma {:induction false} TotalOfThree(a: Candidate, b: Candidate, c: Candidate)
    ensures Total([a, b, c]) == a.weight + b.weight + c.weight
  {
    TotalOfTwo(a, b);
    TotalSnoc([a, b], c);
    assert [a, b] + [c] == [a, b, c];
  }

  lemma {:induction false} TotalOfTwo(a: Candidate, b: Candidate)
    ensures Total([a, b]) == a.weight + b.weight
  {
    TotalSnoc([], a);
    TotalSnoc([a], b);
    assert [] + [a] == [a] && [a] + [b] == [a, b];
  }

  lemma {:induction false} ThreeSlots()
    ensures (U64 - 1) % U64 == U64 - 1 && U64 % U64 == 0 && (U64 + 1) % U64 == 1 && (U64 - 1) % 3 == 0
  {
  }

  lemma {:induction false} ThreeTimes(cs: seq<Candidate>, idx: nat, c: nat)
    requires cs != []
    ensures ChosenTimes(cs, idx, c, 3) ==
            (if Chosen(cs, c % U64) == idx then 1 else 0) + (if Chosen(cs, (c + 1) % U64) == idx then 1 else 0)
            + if Chosen(cs, (c + 2) % U64) == idx then 1 else 0
  {
    hide Chosen;
    assert ChosenTimes(cs, idx, c, 0) == 0;
    assert ChosenTimes(cs, idx, c, 1) == if Chosen(cs, c % U64) == idx then 1 else 0;
  }

  /** Weights that add up past 2^32: the second candidate is never chosen. */
  lemma {:induction false} WrappedWeightsStarve(counter: nat)
    ensures Chosen([Candidate(0, U32 - 1), Candidate(1, 2)], counter) == 0
  {
    var cs := [Candidate(0, U32 - 1), Candidate(1, 2)];
    TotalOfTwo(cs[0], cs[1]);
    assert Total32(cs) == 1;
  }

  // ---------------------------------------------------------------- the replicas

  datatype Replica = Replica(weight: ConfiguredWeight, backup: bool, healthy: bool, breaker: Breaker)

  datatype Scheduler = Scheduler(replicas: seq<Replica>, counter: nat)

  /** What the outside world answers during one call: the clock of the breakers, and whether each
      replica's pool gives a connection. */
  datatype World = World(now: nat, recoveryMs: nat, connects: seq<bool>)

  predicate Eligible(r: Replica, backupPass: bool, w: World) {
    r.backup == backupPass && r.healthy && r.breaker.Admit(w.now, w.recoveryMs).0
  }

  /** Asking for traffic may turn an open breaker half-open; only replicas that pass the other tests are asked. */
  function Asked(r: Replica, backupPass: bool, w: World): Replica {
    if r.backup == backupPass && r.healthy then r.(breaker := r.breaker.Admit(w.now, w.recoveryMs).1) else r
  }

  function AskAll(rs: seq<Replica>, backupPass: bool, w: World): (asked: seq<Replica>)
    ensures |asked| == |rs|
    ensures forall i :: 0 <= i < |rs| ==> asked[i] == Asked(rs[i], backupPass, w)
  {
    seq(|rs|, i requires 0 <= i < |rs| => Asked(rs[i], backupPass, w))
  }

  /** The eligible replicas among the first `n`, with weights of at least one. */
  function Candidates(rs: seq<Replica>, n: nat, backupPass: bool, w: World): seq<Candidate>
    requires n <= |rs|
  {
    if n == 0 then []
    else Candidates(rs, n - 1, backupPass, w) +
         if Eligible(rs[n - 1], backupPass, w) then [Candidate(n - 1, Max(1, rs[n - 1].weight))] else []
  }

  predicate Among(cs: seq<Candidate>, i: int) { exists k :: 0 <= k < |cs| && cs[k].idx == i }

  /** The candidates are exactly the eligible replicas, each once, with its weight or one. */
  lemma {:induction false} CandidatesAreEligible(rs: seq<Replica>, n: nat, backupPass: bool, w: World)
    requires n <= |rs|
    ensures var cs := Candidates(rs, n, backupPass, w);
            && Distinct(cs)
            && (forall i :: Among(cs, i) <==> 0 <= i < n && Eligible(rs[i], backupPass, w))
            && (forall k :: 0 <= k < |cs| ==> cs[k].idx < n && cs[k].weight == Max(1, rs[cs[k].idx].weight))
  {
    if n > 0 {
      var front, cs := Candidates(rs, n - 1, backupPass, w), Candidates(rs, n, backupPass, w);
      CandidatesAreEligible(rs, n - 1, backupPass, w);
      hide Eligible;
      forall i
        ensures Among(cs, i) <==> Among(front, i) || (cs != front && i == n - 1)
      {
        if k :| 0 <= k < |front| && front[k].idx == i {
          assert cs[k].idx == i;
        } else if cs != front {
          assert cs[|front|].idx == n - 1;
        }
      }
      forall k | 0 <= k < |front|
        ensures front[k].idx < n - 1
      {
      }
    }
  }

  /** In terms of the replicas themselves: those of the pass that are healthy and whose breaker is not open,
      or has been for the recovery time. */
  lemma {:induction false} CandidatesAre(rs: seq<Replica>, backupPass: bool, w: World, i: nat)
    requires i < |rs|
    ensures Among(Candidates(rs, |rs|, backupPass, w), i) <==>
              && rs[i].backup == backupPass && rs[i].healthy
              && (rs[i].breaker.state == Open ==> Monus(w.now, rs[i].breaker.openedAt) >= w.recoveryMs)
  {
    CandidatesAreEligible(rs, |rs|, backupPass, w);
    hide Candidates, Among, Distinct;
  }

  lemma {:induction false} CandidatesInOrder(rs: seq<Replica>, n: nat, backupPass: bool, w: World)
    requires n <= |rs|
    ensures var cs := Candidates(rs, n, backupPass, w);
            InOrder(cs) && forall k :: 0 <= k < |cs| ==> cs[k].idx < n
  {
    if n > 0 { CandidatesInOrder(rs, n - 1, backupPass, w); }
  }

  // ---------------------------------------------------------------- one pass

  /** The candidates tried after `chosen` failed: the others in order, up to the first that connects. */
  function Others(cs: seq<Candidate>, chosen: nat, connects: seq<bool>): seq<nat>
    requires forall k :: 0 <= k < |cs| ==> cs[k].idx < |connects|
  {
    if cs == [] then []
    else if cs[0].idx == chosen then Others(cs[1..], chosen, connects)
    else if connects[cs[0].idx] then [cs[0].idx]
    else [cs[0].idx] + Others(cs[1..], chosen, connects)
  }

  /** The replicas one pass tries, in order. */
  function Attempts(cs: seq<Candidate>, chosen: nat, connects: seq<bool>): seq<nat>
    requires chosen < |connects|
    requires forall k :: 0 <= k < |cs| ==> cs[k].idx < |connects|
  {
    [chosen] + if connects[chosen] then [] else Others(cs, chosen, connects)
  }

  /** The replica that served the last attempt, if it connected. */
  function Served(attempts: seq<nat>, connects: seq<bool>): Option<nat>
    requires forall k :: 0 <= k < |attempts| ==> attempts[k] < |connects|
  {
    if attempts != [] && connects[attempts[|attempts| - 1]] then Some(attempts[|attempts| - 1]) else None
  }

  /** `r`, marked unhealthy when it was tried and did not connect. */
  function Marked(r: Replica, i: nat, attempts: seq<nat>, connects: seq<bool>): Replica
    requires i < |connects|
  {
    if i in attempts && !connects[i] then r.(healthy := false) else r
  }

  function MarkAll(rs: seq<Replica>, attempts: seq<nat>, connects: seq<bool>): (marked: seq<Replica>)
    requires |rs| == |connects|
    ensures |marked| == |rs|
    ensures forall i :: 0 <= i < |rs| ==> marked[i] == Marked(rs[i], i, attempts, connects)
  {
    seq(|rs|, i requires 0 <= i < |rs| => Marked(rs[i], i, attempts, connects))
  }

  lemma {:induction false} MarkNone(rs: seq<Replica>, connects: seq<bool>)
    requires |rs| == |connects|
    ensures MarkAll(rs, [], connects) == rs
  {
  }

  lemma {:induction false} MarkMore(rs: seq<Replica>, tried: seq<nat>, i: nat, connects: seq<bool>)
    requires |rs| == |connects| && i < |rs|
    ensures var marked := MarkAll(rs, tried, connects);
            MarkAll(rs, tried + [i], connects) ==
            if connects[i] then marked else marked[i := marked[i].(healthy := false)]
  {
    var marked, more := MarkAll(rs, tried, connects), MarkAll(rs, tried + [i], connects);
    if connects[i] {
      assert forall j :: 0 <= j < |rs| ==> more[j] == marked[j];
    } else {
      assert more == marked[i := marked[i].(healthy := false)];
    }
  }

  /** One pass over the replicas with `backup == backupPass`: what it found, and the scheduler after it. */
  function Pass(s: Scheduler, backupPass: bool, w: World): (Option<nat>, Scheduler)
    requires |w.connects| == |s.replicas|
  {
    var cs := Candidates(s.replicas, |s.replicas|, backupPass, w);
    var asked := AskAll(s.replicas, backupPass, w);
    CandidatesAreEligible(s.replicas, |s.replicas|, backupPass, w);
    if cs == [] then (None, Scheduler(asked, s.counter))
    else
      var tried := Trial(cs, Chosen(cs, s.counter), w.connects);
      (Served(tried, w.connects), Scheduler(MarkAll(asked, tried, w.connects), NextCounter(s.counter)))
  }

  /** `fetch_add` on the shared counter. */
  function NextCounter(counter: nat): nat { (counter + 1) % U64 }

  /** The attempts of a pass, all of them in range. */
  function Trial(cs: seq<Candidate>, chosen: nat, connects: seq<bool>): (tried: seq<nat>)
    requires Among(cs, chosen)
    requires forall k :: 0 <= k < |cs| ==> cs[k].idx < |connects|
    ensures forall k :: 0 <= k < |tried| ==> tried[k] < |connects|
  {
    AttemptsAreCandidates(cs, chosen, connects);
    Attempts(cs, chosen, connects)
  }

  lemma {:induction false} OthersStep(cs: seq<Candidate>, k: nat, chosen: nat, connects: seq<bool>)
    requires k < |cs| && forall i :: 0 <= i < |cs| ==> cs[i].idx < |connects|
    ensures Others(cs[k..], chosen, connects) ==
            if cs[k].idx == chosen then Others(cs[k + 1..], chosen, connects)
            else if connects[cs[k].idx] then [cs[k].idx]
            else [cs[k].idx] + Others(cs[k + 1..], chosen, connects)
  {
    assert cs[k..][1..] == cs[k + 1..];
  }

  lemma Associative(a: seq<nat>, x: nat, b: seq<nat>)
    ensures a + ([x] + b) == (a + [x]) + b
  {
  }

  lemma {:induction false} OthersEnd(cs: seq<Candidate>, chosen: nat, connects: seq<bool>)
    requires forall i :: 0 <= i < |cs| ==> cs[i].idx < |connects|
    ensures Others(cs[|cs|..], chosen, connects) == []
  {
  }

  lemma {:induction false} OthersAreCandidates(cs: seq<Candidate>, chosen: nat, connects: seq<bool>)
    requires forall k :: 0 <= k < |cs| ==> cs[k].idx < |connects|
    ensures var os := Others(cs, chosen, connects);
            forall a :: a in os ==> Among(cs, a)
  {
    if cs != [] {
      OthersAreCandidates(cs[1..], chosen, connects);
      forall a | a in Others(cs, chosen, connects)
        ensures Among(cs, a)
      {
        if a == cs[0].idx {
          assert Among(cs, a);
        } else {
          assert Among(cs[1..], a);
          var k :| 0 <= k < |cs[1..]| && cs[1..][k].idx == a;
          assert cs[k + 1].idx == a;
        }
      }
    }
  }

  lemma {:induction false} AttemptsAreCandidates(cs: seq<Candidate>, chosen: nat, connects: seq<bool>)
    requires chosen < |connects| && Among(cs, chosen)
    requires forall k :: 0 <= k < |cs| ==> cs[k].idx < |connects|
    ensures var tried := Attempts(cs, chosen, connects);
            forall k :: 0 <= k < |tried| ==> Among(cs, tried[k]) && tried[k] < |connects|
  {
    OthersAreCandidates(cs, chosen, connects);
    var tried, os := Attempts(cs, chosen, connects), Others(cs, chosen, connects);
    forall k | 0 <= k < |tried|
      ensures Among(cs, tried[k]) && tried[k] < |connects|
    {
      if k > 0 { assert tried[k] == os[k - 1] && os[k - 1] in os; } else { assert tried[k] == chosen; }
      assert Among(cs, tried[k]);
      var j :| 0 <= j < |cs| && cs[j].idx == tried[k];
    }
  }

  predicate FailUntilLast(os: seq<nat>, connects: seq<bool>) {
    && (forall k :: 0 <= k < |os| ==> os[k] < |connects|)
    && (forall k :: 0 <= k < |os| - 1 ==> !connects[os[k]])
  }

  /** Only the last replica tried can connect. */
  lemma {:induction false} OthersFailUntilLast(cs: seq<Candidate>, chosen: nat, connects: seq<bool>)
    requires forall k :: 0 <= k < |cs| ==> cs[k].idx < |connects|
    ensures FailUntilLast(Others(cs, chosen, connects), connects)
  {
    if cs != [] {
      OthersFailUntilLast(cs[1..], chosen, connects);
      FailFirst(cs[0].idx, Others(cs[1..], chosen, connects), connects);
    }
  }

  lemma {:induction false} FailFirst(i: nat, rest: seq<nat>, connects: seq<bool>)
    requires i < |connects| && FailUntilLast(rest, connects)
    ensures FailUntilLast([i], connects)
    ensures !connects[i] ==> FailUntilLast([i] + rest, connects)
  {
    var os := [i] + rest;
    assert forall k :: 0 < k < |os| ==> os[k] == rest[k - 1];
  }

  /** When none of those tried connects, every candidate was tried. */
  lemma {:induction false} OthersAllTried(cs: seq<Candidate>, chosen: nat, connects: seq<bool>, k: nat)
    requires k < |cs| && forall i :: 0 <= i < |cs| ==> cs[i].idx < |connects|
    ensures var os := Others(cs, chosen, connects);
            cs[k].idx == chosen || cs[k].idx in os || (os != [] && os[|os| - 1] < |connects| && connects[os[|os| - 1]])
  {
    OthersFailUntilLast(cs, chosen, connects);
    if k > 0 {
      OthersAllTried(cs[1..], chosen, connects, k - 1);
    }
  }

  /** Every candidate before the one that served was tried. */
  lemma {:induction false} OthersCoverBefore(cs: seq<Candidate>, chosen: nat, connects: seq<bool>)
    requires InOrder(cs) && forall k :: 0 <= k < |cs| ==> cs[k].idx < |connects|
    ensures var os := Others(cs, chosen, connects);
            os != [] ==> forall k :: 0 <= k < |cs| && cs[k].idx < os[|os| - 1] ==> cs[k].idx == chosen || cs[k].idx in os
  {
    if cs != [] {
      assert forall k :: 0 < k < |cs| ==> cs[k] == cs[1..][k - 1];
      assert InOrder(cs[1..]);
      OthersCoverBefore(cs[1..], chosen, connects);
      OthersAreCandidates(cs[1..], chosen, connects);
      var os, rest := Others(cs, chosen, connects), Others(cs[1..], chosen, connects);
      if rest == [] && os != [] {
        assert os[|os| - 1] == cs[0].idx;
      }
    }
  }

  predicate EndsHighest(os: seq<nat>) { forall a :: a in os ==> a <= os[|os| - 1] }

  /** The replicas after the choice are tried in order. */
  lemma {:induction false} OthersEndHighest(cs: seq<Candidate>, chosen: nat, connects: seq<bool>)
    requires InOrder(cs) && forall k :: 0 <= k < |cs| ==> cs[k].idx < |connects|
    ensures EndsHighest(Others(cs, chosen, connects))
  {
    if cs != [] {
      assert forall k :: 0 < k < |cs| ==> cs[k] == cs[1..][k - 1];
      OthersEndHighest(cs[1..], chosen, connects);
      OthersAreCandidates(cs[1..], chosen, connects);
      var rest := Others(cs[1..], chosen, connects);
      if rest != [] {
        assert rest[|rest| - 1] in rest && Among(cs[1..], rest[|rest| - 1]);
        var k :| 0 <= k < |cs[1..]| && cs[1..][k].idx == rest[|rest| - 1];
        assert cs[0].idx < cs[k + 1].idx;
      }
    }
  }

  /** Those that failed before the answer come before it in order, unless it is the choice. */
  lemma {:induction false} AttemptsEndHighest(cs: seq<Candidate>, chosen: nat, connects: seq<bool>, i: nat)
    requires chosen < |connects| && Among(cs, chosen) && InOrder(cs)
    requires forall k :: 0 <= k < |cs| ==> cs[k].idx < |connects|
    ensures var tried := Trial(cs, chosen, connects);
            var served := Served(tried, connects);
            served.Some? && i in tried && i < |connects| && !connects[i] ==>
              served.value != chosen && (i == chosen || i < served.value)
  {
    AttemptsExhaust(cs, chosen, connects);
    OthersEndHighest(cs, chosen, connects);
    var tried, os := Attempts(cs, chosen, connects), Others(cs, chosen, connects);
    assert i in os ==> i <= os[|os| - 1];
    hide Others, InOrder, Among;
    var served := Served(tried, connects);
    if served.Some? && i in tried && i < |connects| && !connects[i] {
      assert !connects[chosen] && tried == [chosen] + os;
      if i != chosen {
        assert i in os;
        assert served.value == tried[|tried| - 1] == os[|os| - 1] && connects[served.value];
      }
    }
  }

  lemma {:induction false} AttemptsExhaust(cs: seq<Candidate>, chosen: nat, connects: seq<bool>)
    requires chosen < |connects| && Among(cs, chosen)
    requires forall k :: 0 <= k < |cs| ==> cs[k].idx < |connects|
    ensures var tried := Attempts(cs, chosen, connects);
            && (forall k :: 0 <= k < |tried| ==> Among(cs, tried[k]) && tried[k] < |connects|)
            && tried[0] == chosen
            && (forall k :: 0 <= k < |tried| - 1 ==> !connects[tried[k]])
            && (Served(tried, connects) == None ==>
                  forall i :: Among(cs, i) ==> i in tried && i < |connects| && !connects[i])
  {
    AttemptsAreCandidates(cs, chosen, connects);
    OthersFailUntilLast(cs, chosen, connects);
    var tried := Attempts(cs, chosen, connects);
    if Served(tried, connects) == None {
      forall i | Among(cs, i)
        ensures i in tried && i < |connects| && !connects[i]
      {
        var k :| 0 <= k < |cs| && cs[k].idx == i;
        OthersAllTried(cs, chosen, connects, k);
        assert i in tried;
      }
    }
  }

  lemma {:induction false} AttemptsCoverBefore(cs: seq<Candidate>, chosen: nat, connects: seq<bool>, i: nat)
    requires chosen < |connects| && Among(cs, chosen) && InOrder(cs) && Among(cs, i)
    requires forall k :: 0 <= k < |cs| ==> cs[k].idx < |connects|
    ensures var tried := Trial(cs, chosen, connects);
            var served := Served(tried, connects);
            served.Some? && served.value != chosen && i < served.value ==> i in tried && !connects[i]
  {
    AttemptsExhaust(cs, chosen, connects);
    OthersCoverBefore(cs, chosen, connects);
    var tried, os := Attempts(cs, chosen, connects), Others(cs, chosen, connects);
    var k :| 0 <= k < |cs| && cs[k].idx == i;
    if Served(tried, connects).Some? && Served(tried, connects).value != chosen && i < Served(tried, connects).value {
      assert tried == [chosen] + os && os != [] && tried[|tried| - 1] == os[|os| - 1];
      assert i in tried;
      var j :| 0 <= j < |tried| && tried[j] == i;
      assert j < |tried| - 1;
    }
  }

  /** The weighted choice of a pass, when it has candidates. */
  function Choice(s: Scheduler, backupPass: bool, w: World): Option<nat> {
    var cs := Candidates(s.replicas, |s.replicas|, backupPass, w);
    if cs == [] then None else Some(Chosen(cs, s.counter))
  }

  /** The replica was tried and failed, as the pass came out: every eligible one that does not connect was
      when nothing was found, and else the weighted choice and those before the answer, unless the choice
      is the answer. */
  predicate Failed(
      s: Scheduler, backupPass: bool, w: World, choice: Option<nat>, found: Option<nat>, i: nat)
    requires |w.connects| == |s.replicas| && i < |s.replicas|
  {
    && Eligible(s.replicas[i], backupPass, w) && !w.connects[i]
    && (found.None? || (found != choice && (Some(i) == choice || i < found.value)))
  }

  /** What a pass promises: it finds a replica exactly when some eligible one connects, what it finds is
      one of those, and it is the weighted choice unless that failed.  Health is taken from exactly those
      that failed; the breakers of the healthy replicas of the pass are asked, and no other. */
  ghost predicate PassPromise(
      s: Scheduler, backupPass: bool, w: World, choice: Option<nat>, found: Option<nat>, s': Scheduler)
    requires |w.connects| == |s.replicas|
  {
    var n := |s.replicas|;
    && |s'.replicas| == n
    && (found.Some? <==> exists i :: 0 <= i < n && Eligible(s.replicas[i], backupPass, w) && w.connects[i])
    && (found.Some? ==> found.value < n && Eligible(s.replicas[found.value], backupPass, w) && w.connects[found.value])
    && (found.Some? ==> choice.Some? && choice.value < n)
    && (found.Some? && found != choice ==>
          && Eligible(s.replicas[choice.value], backupPass, w) && !w.connects[choice.value]
          && forall i :: 0 <= i < found.value && Eligible(s.replicas[i], backupPass, w) ==> !w.connects[i])
    && (forall i :: 0 <= i < n ==>
          s'.replicas[i] == After(s.replicas[i], backupPass, w, Failed(s, backupPass, w, choice, found, i)))
  }

  /** A replica after a pass in which it failed or did not. */
  function After(r: Replica, backupPass: bool, w: World, failed: bool): Replica {
    Replica(r.weight, r.backup, r.healthy && !failed,
            if r.backup == backupPass && r.healthy then r.breaker.Admit(w.now, w.recoveryMs).1 else r.breaker)
  }

  lemma {:induction false} TrialKeepsPromise(
      s: Scheduler, backupPass: bool, w: World, cs: seq<Candidate>, chosen: nat, counter: nat)
    requires |w.connects| == |s.replicas| && Among(cs, chosen) && InOrder(cs)
    requires forall i :: Among(cs, i) <==> 0 <= i < |s.replicas| && Eligible(s.replicas[i], backupPass, w)
    requires forall k :: 0 <= k < |cs| ==> cs[k].idx < |w.connects|
    ensures var tried := Trial(cs, chosen, w.connects);
            PassPromise(s, backupPass, w, Some(chosen), Served(tried, w.connects),
                        Scheduler(MarkAll(AskAll(s.replicas, backupPass, w), tried, w.connects), counter))
  {
    hide Eligible, Asked, InOrder;
    AttemptsExhaust(cs, chosen, w.connects);
    var tried := Trial(cs, chosen, w.connects);
    var found := Served(tried, w.connects);
    forall i: nat | i < |s.replicas|
      ensures i in tried && !w.connects[i] <==> Failed(s, backupPass, w, Some(chosen), found, i)
    {
      TriedIffFailed(s, backupPass, w, cs, chosen, i);
    }
    forall i: nat | i < |s.replicas| && found.Some? && found.value != chosen && i < found.value
      ensures Eligible(s.replicas[i], backupPass, w) ==> !w.connects[i]
    {
      if Eligible(s.replicas[i], backupPass, w) { AttemptsCoverBefore(cs, chosen, w.connects, i); }
    }
    hide Attempts, Trial, Failed;
    if found.Some? {
      assert Among(cs, tried[|tried| - 1]);
      assert found.value != chosen ==> |tried| > 1 && !w.connects[tried[0]];
    }
    MarksAreExact(s, backupPass, w, Some(chosen), found, tried);
  }

  /** Asking and marking leave each replica as it should be after the pass. */
  lemma {:induction false} MarksAreExact(
      s: Scheduler, backupPass: bool, w: World, choice: Option<nat>, found: Option<nat>, tried: seq<nat>)
    requires |w.connects| == |s.replicas|
    requires forall i: nat :: i < |s.replicas| ==>
               (i in tried && !w.connects[i] <==> Failed(s, backupPass, w, choice, found, i))
    ensures forall i :: 0 <= i < |s.replicas| ==>
              MarkAll(AskAll(s.replicas, backupPass, w), tried, w.connects)[i] ==
              After(s.replicas[i], backupPass, w, Failed(s, backupPass, w, choice, found, i))
  {
    hide Failed;
  }

  lemma {:induction false} TriedIffFailed(
      s: Scheduler, backupPass: bool, w: World, cs: seq<Candidate>, chosen: nat, i: nat)
    requires |w.connects| == |s.replicas| && Among(cs, chosen) && InOrder(cs) && i < |s.replicas|
    requires forall i :: Among(cs, i) <==> 0 <= i < |s.replicas| && Eligible(s.replicas[i], backupPass, w)
    requires forall k :: 0 <= k < |cs| ==> cs[k].idx < |w.connects|
    ensures var tried := Trial(cs, chosen, w.connects);
            i in tried && !w.connects[i] <==>
            Failed(s, backupPass, w, Some(chosen), Served(tried, w.connects), i)
  {
    hide Eligible, InOrder;
    AttemptsExhaust(cs, chosen, w.connects);
    AttemptsEndHighest(cs, chosen, w.connects, i);
    if Among(cs, i) { AttemptsCoverBefore(cs, chosen, w.connects, i); }
    var tried := Trial(cs, chosen, w.connects);
    hide Attempts, Trial;
    if i in tried {
      var k :| 0 <= k < |tried| && tried[k] == i;
      assert Among(cs, tried[k]);
    }
  }

  lemma {:induction false} EmptyPassKeepsPromise(s: Scheduler, backupPass: bool, w: World)
    requires |w.connects| == |s.replicas|
    requires forall i :: 0 <= i < |s.replicas| ==> !Eligible(s.replicas[i], backupPass, w)
    ensures PassPromise(s, backupPass, w, None, None, Scheduler(AskAll(s.replicas, backupPass, w), s.counter))
  {
    hide Eligible;
  }

  lemma {:induction false} PassKeepsPromise(s: Scheduler, backupPass: bool, w: World)
    requires |w.connects| == |s.replicas|
    ensures var (found, s') := Pass(s, backupPass, w);
            PassPromise(s, backupPass, w, Choice(s, backupPass, w), found, s')
  {
    hide PassPromise, Among, Eligible, Candidates, Distinct, InOrder, Chosen, Total, MarkAll, AskAll, NextCounter, Trial, Served;
    var cs := Candidates(s.replicas, |s.replicas|, backupPass, w);
    CandidatesAreEligible(s.replicas, |s.replicas|, backupPass, w);
    if cs == [] {
      NoCandidates(s.replicas, backupPass, w);
      EmptyPassKeepsPromise(s, backupPass, w);
    } else {
      CandidatesInOrder(s.replicas, |s.replicas|, backupPass, w);
      TrialKeepsPromise(s, backupPass, w, cs, Chosen(cs, s.counter), NextCounter(s.counter));
    }
  }

  lemma {:induction false} NoCandidates(rs: seq<Replica>, backupPass: bool, w: World)
    requires Candidates(rs, |rs|, backupPass, w) == []
    ensures forall i :: 0 <= i < |rs| ==> !Eligible(rs[i], backupPass, w)
  {
    CandidatesAreEligible(rs, |rs|, backupPass, w);
    hide Eligible, Candidates;
    forall i | 0 <= i < |rs|
      ensures !Eligible(rs[i], backupPass, w)
    {
      assert !Among([], i);
    }
  }

  // ---------------------------------------------------------------- the whole selection

  /** `get_replica_for_database` up to the connection: a replica, or `None` for the primary. */
  function GetReplica(s: Scheduler, w: World): (Option<nat>, Scheduler)
    requires |w.connects| == |s.replicas|
  {
    if s.replicas == [] then (None, s)
    else
      var (first, s1) := Pass(s, false, w);
      if first.Some? then (first, s1)
      else
        assert |s1.replicas| == |s.replicas| by { PassKeepsPromise(s, false, w); }
        Pass(s1, true, w)
  }

  predicate Offers(s: Scheduler, w: World, i: nat, backup: bool)
    requires |w.connects| == |s.replicas|
  {
    i < |s.replicas| && Eligible(s.replicas[i], backup, w) && w.connects[i]
  }

  /** The weighted choice of the pass that answers. */
  function FinalChoice(s: Scheduler, w: World): Option<nat>
    requires |w.connects| == |s.replicas|
  {
    var (first, s1) := Pass(s, false, w);
    if first.Some? then Choice(s, false, w) else Choice(s1, true, w)
  }

  /** The pass that served tried its choice first and then the replicas in order: unless the choice is
      the answer, it and every eligible replica before the answer failed and are left unhealthy. */
  ghost predicate ServedInTurn(s: Scheduler, w: World, choice: Option<nat>, target: nat, s': Scheduler)
    requires |w.connects| == |s.replicas| == |s'.replicas| && target < |s.replicas|
  {
    choice != Some(target) ==>
      && choice.Some? && choice.value < |s.replicas|
      && !w.connects[choice.value] && !s'.replicas[choice.value].healthy
      && forall i :: 0 <= i < target && Eligible(s.replicas[i], s.replicas[target].backup, w) ==> !s'.replicas[i].healthy
  }

  /** A pass over the non-backups leaves the backups as they are. */
  lemma {:induction false} BackupsUntouched(s: Scheduler, w: World, choice: Option<nat>, found: Option<nat>, s1: Scheduler)
    requires |w.connects| == |s.replicas| && PassPromise(s, false, w, choice, found, s1)
    ensures |s1.replicas| == |s.replicas|
    ensures forall i :: 0 <= i < |s.replicas| ==>
              && Eligible(s1.replicas[i], true, w) == Eligible(s.replicas[i], true, w)
              && s1.replicas[i].backup == s.replicas[i].backup
              && (s.replicas[i].backup ==> s1.replicas[i] == s.replicas[i])
  {
  }

  /** Candidates depend on eligibility and weights alone. */
  lemma {:induction false} SameCandidates(rs: seq<Replica>, rs': seq<Replica>, n: nat, backupPass: bool, w: World)
    requires n <= |rs| == |rs'|
    requires forall i :: 0 <= i < n ==>
      Eligible(rs[i], backupPass, w) == Eligible(rs'[i], backupPass, w) && rs[i].weight == rs'[i].weight
    ensures Candidates(rs, n, backupPass, w) == Candidates(rs', n, backupPass, w)
  {
    hide Eligible;
    if n > 0 { SameCandidates(rs, rs', n - 1, backupPass, w); }
  }

  lemma {:induction false} AnswerInTurn(s: Scheduler, w: World)
    requires |w.connects| == |s.replicas|
    ensures var (target, s') := GetReplica(s, w);
            && |s'.replicas| == |s.replicas|
            && (target.Some? ==> target.value < |s.replicas| && ServedInTurn(s, w, FinalChoice(s, w), target.value, s'))
  {
    hide Pass, Choice, Eligible;
    PassKeepsPromise(s, false, w);
    var (first, s1) := Pass(s, false, w);
    if s.replicas != [] {
      if first.None? {
        BackupsUntouched(s, w, Choice(s, false, w), first, s1);
        PassKeepsPromise(s1, true, w);
        SecondInTurn(s, s1, w, Choice(s1, true, w), Pass(s1, true, w).0, Pass(s1, true, w).1);
      } else {
        FirstInTurn(s, w, Choice(s, false, w), first, s1);
      }
    }
  }

  lemma {:induction false} FirstInTurn(s: Scheduler, w: World, choice: Option<nat>, found: Option<nat>, s': Scheduler)
    requires |w.connects| == |s.replicas| && PassPromise(s, false, w, choice, found, s') && found.Some?
    ensures |s'.replicas| == |s.replicas| && found.value < |s.replicas| && ServedInTurn(s, w, choice, found.value, s')
  {
    assert !s.replicas[found.value].backup;
    hide Eligible, Asked;
  }

  lemma {:induction false} SecondInTurn(
      s: Scheduler, s1: Scheduler, w: World, choice: Option<nat>, found: Option<nat>, s': Scheduler)
    requires |w.connects| == |s.replicas| == |s1.replicas| && PassPromise(s1, true, w, choice, found, s')
    requires forall i :: 0 <= i < |s.replicas| ==>
               && Eligible(s1.replicas[i], true, w) == Eligible(s.replicas[i], true, w)
               && s1.replicas[i].backup == s.replicas[i].backup
    ensures |s'.replicas| == |s.replicas|
    ensures found.Some? ==> found.value < |s.replicas| && ServedInTurn(s, w, choice, found.value, s')
  {
    if found.Some? {
      assert Eligible(s1.replicas[found.value], true, w);
      assert s.replicas[found.value].backup;
    }
    hide Eligible, Asked;
  }

  /** A read goes to a non-backup replica whenever one offers a connection, else to a backup whenever one
      does, else to the primary.  Every eligible replica of a pass that found nothing is left unhealthy,
      so are those that failed before the answer, and no replica loses its health unless it was eligible
      and failed to connect. */
  lemma {:induction false} FallbackOrder(s: Scheduler, w: World)
    requires |w.connects| == |s.replicas|
    ensures var (target, s') := GetReplica(s, w);
            && |s'.replicas| == |s.replicas|
            && (target.Some? ==> target.value < |s.replicas|
                                 && Offers(s, w, target.value, s.replicas[target.value].backup)
                                 && ServedInTurn(s, w, FinalChoice(s, w), target.value, s'))
            && (target.Some? && !s.replicas[target.value].backup <==> exists i :: Offers(s, w, i, false))
            && (target.None? <==> forall i, b :: !Offers(s, w, i, b))
            && (target.None? ==>
                  forall i, b :: 0 <= i < |s.replicas| && Eligible(s.replicas[i], b, w) ==> !s'.replicas[i].healthy)
            && (target.Some? && s.replicas[target.value].backup ==>
                  forall i :: 0 <= i < |s.replicas| && Eligible(s.replicas[i], false, w) ==> !s'.replicas[i].healthy)
            && (forall i :: 0 <= i < |s.replicas| && s'.replicas[i].healthy != s.replicas[i].healthy ==>
                  Eligible(s.replicas[i], s.replicas[i].backup, w) && !w.connects[i] && !s'.replicas[i].healthy)
  {
    hide Pass, Choice, FinalChoice, ServedInTurn;
    AnswerInTurn(s, w);
    PassKeepsPromise(s, false, w);
    var (first, s1) := Pass(s, false, w);
    if s.replicas != [] && first.None? {
      BackupsUntouched(s, w, Choice(s, false, w), first, s1);
      PassKeepsPromise(s1, true, w);
      forall i: nat ensures Offers(s, w, i, true) <==> Offers(s1, w, i, true) {
        if i < |s.replicas| { assert s1.replicas[i].backup == s.replicas[i].backup; }
      }
      var found := Pass(s1, true, w).0;
      assert found.Some? ==> Offers(s1, w, found.value, true) && s.replicas[found.value].backup;
      forall i: nat | found.None? ensures !Offers(s1, w, i, true) {
      }
    }
  }

  // ---------------------------------------------------------------- fairness of whole passes

  /** Passes one after the other, each with the candidates `cs`, all of which connect. */
  predicate Steady(s: Scheduler, backupPass: bool, ws: seq<World>, cs: seq<Candidate>)
    decreases |ws|
  {
    ws == [] ||
    (&& |ws[0].connects| == |s.replicas|
     && Candidates(s.replicas, |s.replicas|, backupPass, ws[0]) == cs
     && (forall k :: 0 <= k < |cs| ==> cs[k].idx < |s.replicas| && ws[0].connects[cs[k].idx])
     && Steady(Pass(s, backupPass, ws[0]).1, backupPass, ws[1..], cs))
  }

  /** How many of the passes `idx` serves. */
  function ServedTimes(s: Scheduler, backupPass: bool, ws: seq<World>, cs: seq<Candidate>, idx: nat): nat
    requires Steady(s, backupPass, ws, cs)
    decreases |ws|
  {
    if ws == [] then 0
    else
      var (found, s') := Pass(s, backupPass, ws[0]);
      (if found == Some(idx) then 1 else 0) + ServedTimes(s', backupPass, ws[1..], cs, idx)
  }

  lemma {:induction false} ChoiceServes(s: Scheduler, backupPass: bool, w: World, cs: seq<Candidate>)
    requires |w.connects| == |s.replicas| && Candidates(s.replicas, |s.replicas|, backupPass, w) == cs && cs != []
    requires forall k :: 0 <= k < |cs| ==> cs[k].idx < |s.replicas| && w.connects[cs[k].idx]
    ensures Pass(s, backupPass, w).0 == Some(Chosen(cs, s.counter))
    ensures Pass(s, backupPass, w).1.counter == NextCounter(s.counter)
  {
    hide Candidates, Chosen, AskAll, MarkAll, NextCounter;
    var chosen := Chosen(cs, s.counter);
    var k :| 0 <= k < |cs| && cs[k].idx == chosen;
  }

  lemma {:induction false} ServedIsChosen(s: Scheduler, backupPass: bool, ws: seq<World>, cs: seq<Candidate>, idx: nat)
    requires Steady(s, backupPass, ws, cs) && cs != [] && s.counter < U64 && s.counter + |ws| <= U64
    ensures ServedTimes(s, backupPass, ws, cs, idx) == ChosenTimes(cs, idx, s.counter, |ws|)
    decreases |ws|
  {
    hide Pass, Chosen, Candidates, NextCounter;
    if ws != [] {
      ChoiceServes(s, backupPass, ws[0], cs);
      ChosenTimesFirst(cs, idx, s.counter, |ws|);
      NextCounterIs(s.counter);
      ServedIsChosen(Pass(s, backupPass, ws[0]).1, backupPass, ws[1..], cs, idx);
      hide Steady;
    }
  }

  lemma {:induction false} NextCounterIs(counter: nat)
    requires counter < U64
    ensures counter % U64 == counter
    ensures NextCounter(counter) == if counter + 1 == U64 then 0 else counter + 1
  {
  }

  /** W passes in a row with the same candidates of total weight W, all of them connecting, are served by
      each candidate exactly its weight's number of times. */
  lemma {:induction false} PassesAreFair(s: Scheduler, backupPass: bool, ws: seq<World>, cs: seq<Candidate>, i: nat)
    requires Steady(s, backupPass, ws, cs) && i < |cs| && |ws| == Total(cs) < U32
    requires s.counter < U64 && s.counter + |ws| <= U64
    ensures ServedTimes(s, backupPass, ws, cs, cs[i].idx) == cs[i].weight
  {
    CandidatesAreEligible(s.replicas, |s.replicas|, backupPass, ws[0]);
    hide Candidates, ChosenTimes, ServedTimes, Eligible;
    ServedIsChosen(s, backupPass, ws, cs, cs[i].idx);
    WeightedFairness(cs, i, s.counter);
  }

  // ---------------------------------------------------------------- the scheduler itself

  /** The candidates' weights do not add up to zero in 32 bits. */
  predicate Divides(rs: seq<Replica>, backupPass: bool, w: World) {
    var cs := Candidates(rs, |rs|, backupPass, w);
    cs != [] ==> Total(cs) % U32 != 0
  }

  class BackendReplicas {
    var replicas: seq<Replica>
    var replicaIndex: nat

    constructor (replicas: seq<Replica>)
      ensures Value() == Scheduler(replicas, 0)
    {
      this.replicas, replicaIndex := replicas, 0;
    }

    function Value(): Scheduler
      reads this
    {
      Scheduler(replicas, replicaIndex)
    }

    /** The filter over the replicas, which asks the breakers as it goes. */
    method CollectCandidates(backupPass: bool, w: World) returns (cs: seq<Candidate>)
      modifies this`replicas
      ensures cs == Candidates(old(replicas), |old(replicas)|, backupPass, w)
      ensures replicas == AskAll(old(replicas), backupPass, w)
    {
      cs := [];
      for i := 0 to |replicas|
        invariant |replicas| == |old(replicas)|
        invariant cs == Candidates(old(replicas), i, backupPass, w)
        invariant forall j :: 0 <= j < i ==> replicas[j] == Asked(old(replicas)[j], backupPass, w)
        invariant forall j :: i <= j < |replicas| ==> replicas[j] == old(replicas)[j]
      {
        var r := replicas[i];
        if r.backup == backupPass && r.healthy {
          var (ok, breaker) := r.breaker.Admit(w.now, w.recoveryMs);
          replicas := replicas[i := r.(breaker := breaker)];
          if ok { cs := cs + [Candidate(i, Max(1, r.weight))]; }
        }
      }
    }

    method MarkUnhealthy(i: nat)
      requires i < |replicas|
      modifies this`replicas
      ensures replicas == old(replicas)[i := old(replicas)[i].(healthy := false)]
    {
      replicas := replicas[i := replicas[i].(healthy := false)];
    }

    /** `try_weighted_replica`; the source panics when the weights add up to zero in 32 bits. */
    method TryWeightedReplica(backupPass: bool, w: World) returns (found: Option<nat>)
      requires |w.connects| == |replicas| && Divides(replicas, backupPass, w)
      modifies this
      ensures (found, Value()) == Pass(old(Value()), backupPass, w)
    {
      hide Candidates, Pick, Chosen, Total, Total32, Served, AskAll, MarkAll, Marked, NextCounter, Among, Distinct, Eligible, Asked, Trial;
      CandidatesAreEligible(replicas, |replicas|, backupPass, w);
      var cs := CollectCandidates(backupPass, w);
      if cs == [] { return None; }
      var counter := replicaIndex;
      replicaIndex := NextCounter(replicaIndex);
      var chosen := Choose(cs, counter);
      ghost var tried;
      found, tried := TryFrom(cs, chosen, w.connects);
    }

    /** The choice first, then the remaining candidates in order. */
    method TryFrom(cs: seq<Candidate>, chosen: nat, connects: seq<bool>) returns (found: Option<nat>, ghost tried: seq<nat>)
      requires |connects| == |replicas| && chosen < |replicas| && Among(cs, chosen)
      requires forall k :: 0 <= k < |cs| ==> cs[k].idx < |replicas|
      modifies this`replicas
      ensures tried == Trial(cs, chosen, connects)
      ensures found == Served(tried, connects)
      ensures replicas == MarkAll(old(replicas), tried, connects)
    {
      ghost var start := replicas;
      MarkNone(start, connects);
      MarkMore(start, [], chosen, connects);
      assert [] + [chosen] == [chosen];
      if connects[chosen] { return Some(chosen), [chosen]; }
      hide Others, Among, Marked, MarkAll;
      MarkUnhealthy(chosen);
      found, tried := TryRest(cs, chosen, connects, start);
    }

    /** The candidates after a failed choice. */
    method TryRest(cs: seq<Candidate>, chosen: nat, connects: seq<bool>, ghost start: seq<Replica>)
      returns (found: Option<nat>, ghost tried: seq<nat>)
      requires |connects| == |start| && chosen < |start| && !connects[chosen]
      requires forall k :: 0 <= k < |cs| ==> cs[k].idx < |start|
      requires replicas == MarkAll(start, [chosen], connects)
      modifies this`replicas
      ensures tried == [chosen] + Others(cs, chosen, connects)
      ensures forall k :: 0 <= k < |tried| ==> tried[k] < |connects|
      ensures found == Served(tried, connects)
      ensures replicas == MarkAll(start, tried, connects)
    {
      hide Marked, MarkAll, Others;
      tried := [chosen];
      assert cs[0..] == cs;
      for k := 0 to |cs|
        invariant replicas == MarkAll(start, tried, connects)
        invariant tried != [] && [chosen] + Others(cs, chosen, connects) == tried + Others(cs[k..], chosen, connects)
        invariant forall j :: 0 <= j < |tried| ==> tried[j] < |connects| && !connects[tried[j]]
      {
        OthersStep(cs, k, chosen, connects);
        var idx := cs[k].idx;
        if idx == chosen { continue; }
        Associative(tried, idx, Others(cs[k + 1..], chosen, connects));
        MarkMore(start, tried, idx, connects);
        tried := tried + [idx];
        if connects[idx] {
          assert tried[|tried| - 1] == idx;
          return Some(idx), tried;
        }
        MarkUnhealthy(idx);
      }
      OthersEnd(cs, chosen, connects);
      assert tried + [] == tried;
      return None, tried;
    }

    /** `get_replica_for_database`: `None` routes the read to the primary. */
    method GetReplicaForDatabase(w: World) returns (target: Option<nat>)
      requires |w.connects| == |replicas|
      requires Divides(replicas, false, w)
      requires Pass(Value(), false, w).0.None? ==> Divides(replicas, true, w)
      modifies this
      ensures (target, Value()) == GetReplica(old(Value()), w)
    {
      if replicas == [] { return None; }
      ghost var s := Value();
      target := TryWeightedReplica(false, w);
      PassKeepsPromise(s, false, w);
      if target.Some? { return; }
      hide Pass;
      SameCandidates(s.replicas, replicas, |replicas|, true, w);
      target := TryWeightedReplica(true, w);
    }
  }
}
