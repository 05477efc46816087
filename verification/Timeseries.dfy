/** The throughput time series: one-minute rows rolled up into hours and hours into days, and pruning of
    all three at any cutoff.  The tables of one SQLite relation, kept apart by resolution. */
module Timeseries {
  import opened Prelude
  import opened Sums

  datatype Row = Row(queries: nat, slow: nat, totalUs: nat, maxUs: nat)

  /** Buckets are unix seconds. */
  type Table = map<int, Row>

  datatype Store = Store(minutes: Table, hours: Table, days: Table)

  const EMPTY := Store(map[], map[], map[])
  const NOTHING := Row(0, 0, 0, 0)

  function Combine(a: Row, b: Row): Row {
    Row(a.queries + b.queries, a.slow + b.slow, a.totalUs + b.totalUs, Max(a.maxUs, b.maxUs))
  }

  const HOUR := 3600
  const DAY := 86400

  /** `(b / n) * n` as SQLite computes it: integer division truncates toward zero. */
  function Group(b: int, n: int): int
    requires n > 0
  {
    if b >= 0 then b / n * n else -(-b / n * n)
  }

  /** From 1970 on, hours and days start at the whole hour or day at or before the bucket; before 1970, at
      the one at or after it. */
  lemma {:induction false} GroupMeans(b: int)
    ensures b >= 0 ==> Group(b, HOUR) == b - b % 3600 && Group(b, DAY) == b - b % 86400
    ensures b < 0 ==> Group(b, HOUR) == b + -b % 3600 && Group(b, DAY) == b + -b % 86400
  {
  }

  // ---------------------------------------------------------------- aggregates over a set of rows

  /** SUM and MAX over the rows of `t` at `keys`. */
  ghost function Agg<K>(t: map<K, Row>, keys: set<K>): Row
    requires keys <= t.Keys
  {
    if keys == {} then NOTHING
    else
      var k :| k in keys;
      Combine(t[k], Agg(t, keys - {k}))
  }

  lemma CombineLaws(a: Row, b: Row, c: Row)
    ensures Combine(a, Combine(b, c)) == Combine(b, Combine(a, c)) == Combine(Combine(a, b), c)
    ensures Combine(NOTHING, a) == a
  {
  }

  lemma {:induction false} AggRemove<K>(t: map<K, Row>, keys: set<K>, k: K)
    requires keys <= t.Keys && k in keys
    ensures Agg(t, keys) == Combine(t[k], Agg(t, keys - {k}))
    decreases keys
  {
    var j :| j in keys && Agg(t, keys) == Combine(t[j], Agg(t, keys - {j}));
    if j != k {
      AggRemove(t, keys - {j}, k);
      AggRemove(t, keys - {k}, j);
      assert keys - {j} - {k} == keys - {k} - {j};
      CombineLaws(t[j], t[k], Agg(t, keys - {j} - {k}));
      hide Combine;
    }
  }

  /** The total of one column over the rows at `keys`. */
  ghost function Total<K>(t: map<K, Row>, keys: set<K>, column: Row -> nat): nat
    requires keys <= t.Keys
  {
    Sum(map k | k in keys :: column(t[k]))
  }

  lemma {:induction false} TotalRemove<K>(t: map<K, Row>, keys: set<K>, k: K, column: Row -> nat)
    requires keys <= t.Keys && k in keys
    ensures Total(t, keys, column) == column(t[k]) + Total(t, keys - {k}, column)
  {
    var m := map j | j in keys :: column(t[j]);
    SumRemove(m, k);
    assert m - {k} == map j | j in keys - {k} :: column(t[j]);
  }

  lemma {:induction false} TotalOfNone<K>(t: map<K, Row>, keys: set<K>, column: Row -> nat)
    requires keys <= t.Keys
    ensures keys == {} ==> Total(t, keys, column) == 0
  {
    var m := map k | k in keys :: column(t[k]);
    assert m.Keys == keys;
  }

  /** The sums in plain terms. */
  lemma {:induction false} AggTotals<K>(t: map<K, Row>, keys: set<K>)
    requires keys <= t.Keys
    ensures Agg(t, keys).queries == Total(t, keys, (r: Row) => r.queries)
    ensures Agg(t, keys).slow == Total(t, keys, (r: Row) => r.slow)
    ensures Agg(t, keys).totalUs == Total(t, keys, (r: Row) => r.totalUs)
    decreases keys
  {
    var queries, slow, totalUs := (r: Row) => r.queries, (r: Row) => r.slow, (r: Row) => r.totalUs;
    hide Total;
    if keys == {} {
      TotalOfNone(t, keys, queries);
      TotalOfNone(t, keys, slow);
      TotalOfNone(t, keys, totalUs);
    } else {
      var k := Member(keys);
      AggRemove(t, keys, k);
      AggTotals(t, keys - {k});
      TotalRemove(t, keys, k, queries);
      TotalRemove(t, keys, k, slow);
      TotalRemove(t, keys, k, totalUs);
    }
  }

  /** The largest maximum, attained by one of the rows. */
  lemma {:induction false} AggMax<K>(t: map<K, Row>, keys: set<K>)
    requires keys <= t.Keys
    ensures forall k :: k in keys ==> t[k].maxUs <= Agg(t, keys).maxUs
    ensures keys != {} ==> exists k :: k in keys && t[k].maxUs == Agg(t, keys).maxUs
    decreases keys
  {
    if keys != {} {
      var k := Member(keys);
      AggRemove(t, keys, k);
      AggMax(t, keys - {k});
      if keys - {k} == {} { assert Agg(t, keys - {k}) == NOTHING; }
    }
  }

  lemma {:induction false} AggUnion<K>(t: map<K, Row>, a: set<K>, b: set<K>)
    requires a <= t.Keys && b <= t.Keys && a !! b
    ensures Agg(t, a + b) == Combine(Agg(t, a), Agg(t, b))
    decreases a
  {
    if a == {} {
      assert a + b == b;
      CombineLaws(Agg(t, b), NOTHING, NOTHING);
    } else {
      var k :| k in a;
      AggUnion(t, a - {k}, b);
      AggRemove(t, a + b, k);
      AggRemove(t, a, k);
      assert a + b - {k} == (a - {k}) + b;
      CombineLaws(t[k], Agg(t, a - {k}), Agg(t, b));
      hide Combine;
    }
  }

  /** The rows of `t` that fall into group `g`. */
  ghost function Members(t: Table, n: int, g: int): set<int>
    requires n > 0
  {
    set b | b in t && Group(b, n) == g
  }

  /** GROUP BY: one row for every group that has members. */
  ghost function Grouped(t: Table, n: int): Table
    requires n > 0
  {
    map g | g in (set b | b in t :: Group(b, n)) :: Agg(t, Members(t, n, g))
  }

  /** Aggregates look at the named rows only. */
  lemma {:induction false} AggSame<K>(t: map<K, Row>, t': map<K, Row>, keys: set<K>)
    requires keys <= t.Keys && keys <= t'.Keys && forall k :: k in keys ==> t[k] == t'[k]
    ensures Agg(t, keys) == Agg(t', keys)
    decreases keys
  {
    if keys != {} {
      var k :| k in keys;
      AggSame(t, t', keys - {k});
      AggRemove(t, keys, k);
      AggRemove(t', keys, k);
    }
  }

  lemma {:induction false} GroupsOf(t: Table, n: int)
    requires n > 0
    ensures Grouped(t, n).Keys == set b | b in t :: Group(b, n)
    ensures forall g :: g in Grouped(t, n) ==> Grouped(t, n)[g] == Agg(t, Members(t, n, g))
  {
    hide Group, Agg;
  }

  lemma {:induction false} GroupsMore(t0: Table, t1: Table, b: int, n: int)
    requires n > 0 && t1.Keys == t0.Keys + {b}
    ensures Grouped(t1, n).Keys == Grouped(t0, n).Keys + {Group(b, n)}
  {
    hide Group, Agg, Grouped;
    GroupsOf(t0, n);
    GroupsOf(t1, n);
  }

  /** The aggregate of the group that takes in row `b`, and of any other. */
  lemma {:induction false} AggMore(t0: Table, t1: Table, b: int, n: int, j: int)
    requires n > 0 && b !in t0 && t1.Keys == t0.Keys + {b} && forall k :: k in t0 ==> t0[k] == t1[k]
    ensures Agg(t1, Members(t1, n, j)) ==
            if Group(b, n) == j then Combine(t1[b], Agg(t0, Members(t0, n, j))) else Agg(t0, Members(t0, n, j))
  {
    hide Group, Combine, Agg;
    AggSame(t0, t1, Members(t0, n, j));
    if Group(b, n) == j {
      assert Members(t1, n, j) - {b} == Members(t0, n, j);
      AggRemove(t1, Members(t1, n, j), b);
    } else {
      assert Members(t1, n, j) == Members(t0, n, j);
    }
  }

  lemma {:induction false} NoMembers(t: Table, n: int, g: int)
    requires n > 0 && g !in Grouped(t, n)
    ensures Agg(t, Members(t, n, g)) == NOTHING
  {
    hide Group;
    assert Members(t, n, g) == {};
  }

  /** Taking in one more row changes the row of its group alone. */
  lemma {:induction false} GroupedMore(t: Table, left: set<int>, b: int, n: int)
    requires n > 0 && left <= t.Keys && b in left
    ensures var g, k := Grouped(t - left, n), Group(b, n);
            Grouped(t - (left - {b}), n) ==
            g[k := if k in g then Combine(t[b], g[k]) else Combine(t[b], NOTHING)]
  {
    hide Group, Combine, Agg, Members, Grouped;
    var t0, t1, k := t - left, t - (left - {b}), Group(b, n);
    assert t1.Keys == t0.Keys + {b};
    var g0, g1 := Grouped(t0, n), Grouped(t1, n);
    GroupsMore(t0, t1, b, n);
    GroupsOf(t0, n);
    GroupsOf(t1, n);
    forall j | j in g1
      ensures g1[j] == if j != k then g0[j] else if k in g0 then Combine(t[b], g0[k]) else Combine(t[b], NOTHING)
    {
      AggMore(t0, t1, b, n, j);
      if j !in g0 { NoMembers(t0, n, j); }
    }
  }

  // ---------------------------------------------------------------- the store

  function Upsert(t: Table, b: int, row: Row): Table {
    t[b := if b in t then Combine(t[b], row) else row]
  }

  function Keep(t: Table, cutoff: int): Table { map b | b in t && b >= cutoff :: t[b] }

  ghost function Hourly(s: Store): Store { s.(hours := s.hours + Grouped(s.minutes, HOUR)) }

  ghost function Daily(s: Store): Store { s.(days := s.days + Grouped(s.hours, DAY)) }

  class TimeseriesStore {
    var minutes: Table
    var hours: Table
    var days: Table

    constructor ()
      ensures Value() == EMPTY
    {
      minutes, hours, days := map[], map[], map[];
    }

    function Value(): Store
      reads this
    {
      Store(minutes, hours, days)
    }

    method RecordMinute(bucket: int, snap: Row)
      modifies this
      ensures Value() == old(Value()).(minutes := Upsert(old(minutes), bucket, snap))
    {
      if bucket in minutes {
        var row := minutes[bucket];
        minutes := minutes[bucket := Row(row.queries + snap.queries, row.slow + snap.slow,
                                         row.totalUs + snap.totalUs, Max(row.maxUs, snap.maxUs))];
      } else {
        minutes := minutes[bucket := snap];
      }
    }

    /** The grouping query, row by row. */
    method GroupRows(t: Table, n: int) returns (g: Table)
      requires n > 0
      ensures g == Grouped(t, n)
    {
      g := map[];
      var left := t.Keys;
      while left != {}
        invariant left <= t.Keys && g == Grouped(t - left, n)
        decreases left
      {
        ghost var some := Member(left);
        var b :| b in left;
        GroupedMore(t, left, b, n);
        var k := Group(b, n);
        g := g[k := if k in g then Combine(t[b], g[k]) else Combine(t[b], NOTHING)];
        left := left - {b};
      }
      assert t - {} == t;
    }

    method RollupHourly()
      modifies this
      ensures Value() == Hourly(old(Value()))
    {
      var rolled := GroupRows(minutes, HOUR);
      hours := hours + rolled;
    }

    method RollupDaily()
      modifies this
      ensures Value() == Daily(old(Value()))
    {
      var rolled := GroupRows(hours, DAY);
      days := days + rolled;
    }

    method Prune(cutoff: int)
      modifies this
      ensures Value() == Store(Keep(old(minutes), cutoff), Keep(old(hours), cutoff), Keep(old(days), cutoff))
    {
      minutes := map b | b in minutes && b >= cutoff :: minutes[b];
      hours := map b | b in hours && b >= cutoff :: hours[b];
      days := map b | b in days && b >= cutoff :: days[b];
    }
  }

  // ---------------------------------------------------------------- runs

  datatype Event = Record(bucket: int, snap: Row) | RollHours | RollDays | Prune(cutoff: int)

  ghost function Step(s: Store, e: Event): Store {
    match e
    case Record(b, snap) => s.(minutes := Upsert(s.minutes, b, snap))
    case RollHours => Hourly(s)
    case RollDays => Daily(s)
    case Prune(cutoff) => Store(Keep(s.minutes, cutoff), Keep(s.hours, cutoff), Keep(s.days, cutoff))
  }

  ghost function Run(h: seq<Event>): Store {
    if h == [] then EMPTY else Step(Run(h[..|h| - 1]), h[|h| - 1])
  }

  /** The snapshots recorded for bucket `b` and not pruned since, combined; no tables involved. */
  function Surviving(h: seq<Event>, b: int): Option<Row> {
    if h == [] then None
    else
      var before := Surviving(h[..|h| - 1], b);
      match h[|h| - 1]
      case Record(b', snap) =>
        if b' != b then before
        else if before.Some? then Some(Combine(before.value, snap))
        else Some(snap)
      case Prune(cutoff) => if b < cutoff then None else before
      case _ => before
  }

  /** The one-minute rows are the surviving snapshots. */
  lemma {:induction false} MinutesSurvive(h: seq<Event>, b: int)
    ensures b in Run(h).minutes <==> Surviving(h, b).Some?
    ensures b in Run(h).minutes ==> Run(h).minutes[b] == Surviving(h, b).value
  {
    if h != [] { MinutesSurvive(h[..|h| - 1], b); }
  }

  // ---------------------------------------------------------------- two levels are one

  lemma HoursMakeDays(b: int)
    ensures Group(Group(b, HOUR), DAY) == Group(b, DAY)
  {
    if b >= 0 { NestedDivision(b); } else { NestedDivision(-b); }
  }

  lemma NestedDivision(b: nat)
    ensures b / HOUR * HOUR / DAY == b / DAY
  {
    assert b / HOUR * HOUR / DAY == b / HOUR / 24;
  }

  /** The rows of `t` whose group is one of `gs`. */
  ghost function MembersOf(t: Table, n: int, gs: set<int>): set<int>
    requires n > 0
  {
    set b | b in t && Group(b, n) in gs
  }

  /** The rows of the groups in `gs` aggregate to the aggregate of all their members. */
  lemma {:induction false} AggOfGroups(t: Table, n: int, gs: set<int>)
    requires n > 0 && gs <= Grouped(t, n).Keys
    ensures Agg(Grouped(t, n), gs) == Agg(t, MembersOf(t, n, gs))
    decreases gs
  {
    hide Group, Combine;
    if gs == {} {
      assert MembersOf(t, n, gs) == {};
    } else {
      var g := Member(gs);
      AggRemove(Grouped(t, n), gs, g);
      AggOfGroups(t, n, gs - {g});
      AggUnion(t, Members(t, n, g), MembersOf(t, n, gs - {g}));
      assert MembersOf(t, n, gs) == Members(t, n, g) + MembersOf(t, n, gs - {g});
      assert Grouped(t, n)[g] == Agg(t, Members(t, n, g));
    }
  }

  lemma HourOfDay(t: Table, b: int)
    requires b in t
    ensures Group(b, HOUR) in Grouped(t, HOUR) && Group(Group(b, HOUR), DAY) == Group(b, DAY)
  {
    HoursMakeDays(b);
    hide Group, Agg;
  }

  lemma DaysOfHours(t: Table, d: int)
    ensures var hours := Grouped(t, HOUR);
            && MembersOf(t, HOUR, Members(hours, DAY, d)) == Members(t, DAY, d)
            && (d in Grouped(hours, DAY) <==> d in Grouped(t, DAY))
  {
    hide Group, Agg, Combine;
    var hours := Grouped(t, HOUR);
    forall b | b in t
      ensures Group(b, HOUR) in hours && Group(Group(b, HOUR), DAY) == Group(b, DAY)
    {
      HourOfDay(t, b);
    }
    if d in Grouped(hours, DAY) {
      var h :| h in hours && Group(h, DAY) == d;
      var b :| b in t && Group(b, HOUR) == h;
    }
    if d in Grouped(t, DAY) {
      var b :| b in t && Group(b, DAY) == d;
      assert Group(b, HOUR) in hours;
    }
  }

  /** Rolling minutes into hours and those into days is rolling minutes into days. */
  lemma TwoLevelsAreOne(t: Table)
    ensures Grouped(Grouped(t, HOUR), DAY) == Grouped(t, DAY)
  {
    var hours := Grouped(t, HOUR);
    var twice, once := Grouped(hours, DAY), Grouped(t, DAY);
    forall d
      ensures d in twice <==> d in once
      ensures d in once ==> twice[d] == once[d]
    {
      DaysOfHours(t, d);
      hide Group;
      AggOfGroups(t, HOUR, Members(hours, DAY, d));
    }
  }

  // ---------------------------------------------------------------- rollups are exact views

  /** Rolling up now would leave hours and days equal to direct grouping of the minutes. */
  ghost predicate ExactViews(s: Store) {
    var rolled := Daily(Hourly(s));
    rolled.hours == Grouped(s.minutes, HOUR) && rolled.days == Grouped(s.minutes, DAY)
  }

  /** Neither group of the bucket starts after it. */
  predicate Safe(b: int) { Group(b, HOUR) <= b && Group(b, DAY) <= b }

  /** Those are the buckets from 1970 on, and before it only the ones at midnight. */
  lemma SafeMeans(b: int)
    ensures Safe(b) <==> b >= 0 || b % DAY == 0
  {
    if b < 0 {
      var c := -b;
      assert c == c / DAY * DAY + c % DAY && c == c / HOUR * HOUR + c % HOUR;
      assert b == -(c / DAY) * DAY - c % DAY;
      if c % DAY == 0 { assert c == c / DAY * 24 * HOUR; }
    }
  }

  predicate RecordsSafely(h: seq<Event>) {
    forall i :: 0 <= i < |h| && h[i].Record? ==> Safe(h[i].bucket)
  }

  /** Every hour and day has a minute left in it, and minutes are safe buckets. */
  ghost predicate Grounded(s: Store) {
    && (forall b :: b in s.minutes ==> Safe(b))
    && (forall g :: g in s.hours ==> exists b :: b in s.minutes && Group(b, HOUR) == g)
    && (forall g :: g in s.days ==> exists b :: b in s.minutes && Group(b, DAY) == g)
  }

  lemma StepKeepsGrounded(s: Store, e: Event)
    requires Grounded(s) && (e.Record? ==> Safe(e.bucket))
    ensures Grounded(Step(s, e))
  {
    var s' := Step(s, e);
    hide Safe, Group, Agg, Combine;
    match e
    case Record(b, _) =>
      assert forall k :: k in s.minutes ==> k in s'.minutes;
    case RollHours =>
    case RollDays =>
      forall g | g in s'.days
        ensures exists b :: b in s'.minutes && Group(b, DAY) == g
      {
        if g !in s.days {
          var hr :| hr in s.hours && Group(hr, DAY) == g;
          var b :| b in s.minutes && Group(b, HOUR) == hr;
          HoursMakeDays(b);
        }
      }
    case Prune(cutoff) =>
      PruneKeepsGrounded(s, cutoff);
  }

  lemma PruneKeepsGrounded(s: Store, cutoff: int)
    requires Grounded(s)
    ensures Grounded(Step(s, Prune(cutoff)))
  {
    var s' := Step(s, Prune(cutoff));
    hide Group;
    forall g | g in s'.hours
      ensures exists b :: b in s'.minutes && Group(b, HOUR) == g
    {
      var b :| b in s.minutes && Group(b, HOUR) == g;
      assert Safe(b);
    }
    forall g | g in s'.days
      ensures exists b :: b in s'.minutes && Group(b, DAY) == g
    {
      var b :| b in s.minutes && Group(b, DAY) == g;
      assert Safe(b);
    }
  }

  lemma {:induction false} SafeRunsAreGrounded(h: seq<Event>)
    requires RecordsSafely(h)
    ensures Grounded(Run(h))
  {
    if h != [] {
      SafeRunsAreGrounded(h[..|h| - 1]);
      hide Grounded, Step, Safe;
      StepKeepsGrounded(Run(h[..|h| - 1]), h[|h| - 1]);
    }
  }

  lemma GroundedIsExact(s: Store)
    requires Grounded(s)
    ensures ExactViews(s)
  {
    hide Group, Agg, Safe;
    var hours, days := Grouped(s.minutes, HOUR), Grouped(s.minutes, DAY);
    TwoLevelsAreOne(s.minutes);
    assert forall g :: g in s.hours ==> g in hours;
    assert s.hours + hours == hours;
    assert forall g :: g in s.days ==> g in days;
    assert s.days + days == days;
  }

  /** After any run of records, rollups and prunes at any cutoffs whose buckets are safe, an hourly and a
      daily rollup leave both tables equal to direct grouping of the surviving minutes. */
  lemma RollupsAreExactViews(h: seq<Event>)
    requires RecordsSafely(h)
    ensures ExactViews(Run(h))
  {
    SafeRunsAreGrounded(h);
    GroundedIsExact(Run(h));
  }

  /** A rollup replaces the hours that have minutes and the days that have hours by the aggregate of those,
      and keeps all the others, in any state. */
  lemma {:induction false} RollupReplaces(s: Store, g: int)
    ensures var s' := Step(s, RollHours);
            && s'.minutes == s.minutes && s'.days == s.days
            && (g in s'.hours <==> g in s.hours || exists b :: b in s.minutes && Group(b, HOUR) == g)
            && (g in s'.hours && (exists b :: b in s.minutes && Group(b, HOUR) == g) ==>
                  s'.hours[g] == Agg(s.minutes, Members(s.minutes, HOUR, g)))
            && (g in s'.hours && (forall b :: b in s.minutes ==> Group(b, HOUR) != g) ==> s'.hours[g] == s.hours[g])
    ensures var s' := Step(s, RollDays);
            && s'.minutes == s.minutes && s'.hours == s.hours
            && (g in s'.days <==> g in s.days || exists b :: b in s.hours && Group(b, DAY) == g)
            && (g in s'.days && (exists b :: b in s.hours && Group(b, DAY) == g) ==>
                  s'.days[g] == Agg(s.hours, Members(s.hours, DAY, g)))
            && (g in s'.days && (forall b :: b in s.hours ==> Group(b, DAY) != g) ==> s'.days[g] == s.days[g])
  {
    hide Group, Agg, Grouped;
    GroupsOf(s.minutes, HOUR);
    GroupsOf(s.hours, DAY);
  }

  /** Rolling up again changes nothing, in any state. */
  lemma RollupsAreIdempotent(s: Store)
    ensures var rolled := Daily(Hourly(s)); Daily(Hourly(rolled)) == rolled
  {
    hide Grouped;
    var rolled := Daily(Hourly(s));
    assert rolled.hours + Grouped(s.minutes, HOUR) == rolled.hours;
    assert rolled.days + Grouped(rolled.hours, DAY) == rolled.days;
  }

  // ---------------------------------------------------------------- unsafe buckets

  predicate RecordsOnly(h: seq<Event>, b: int) {
    forall i :: 0 <= i < |h| && h[i].Record? ==> h[i].bucket == b
  }

  /** Recorded, rolled up, and pruned at the start of a group that starts after the bucket. */
  function LateGroup(b: int): int { if Group(b, HOUR) > b then Group(b, HOUR) else Group(b, DAY) }

  function StaleRun(b: int): seq<Event> { [Record(b, NOTHING), RollHours, RollDays, Prune(LateGroup(b))] }

  lemma GroupOfOne(b: int, row: Row, n: int)
    requires n > 0
    ensures Grouped(map[b := row], n) == map[Group(b, n) := Combine(row, NOTHING)]
  {
    var t := map[b := row];
    assert Members(t, n, Group(b, n)) == {b};
    AggRemove(t, {b}, b);
    assert {b} - {b} == {};
    assert Grouped(t, n).Keys == {Group(b, n)};
  }

  lemma GroupOfNone(n: int)
    requires n > 0
    ensures Grouped(map[], n) == map[]
  {
    assert Grouped(map[], n).Keys == {};
  }

  lemma {:induction false} RunPrefix(h: seq<Event>, k: nat)
    requires k < |h|
    ensures Run(h[..k + 1]) == Step(Run(h[..k]), h[k])
  {
    assert h[..k + 1][..k] == h[..k];
    hide Step;
  }

  lemma {:induction false} FirstRecord(b: int)
    ensures Step(EMPTY, Record(b, NOTHING)) == Store(map[b := NOTHING], map[], map[])
  {
  }

  lemma {:induction false} FirstHour(b: int)
    ensures var row := Combine(NOTHING, NOTHING);
            Step(Store(map[b := NOTHING], map[], map[]), RollHours)
            == Store(map[b := NOTHING], map[Group(b, HOUR) := row], map[])
  {
    hide Group, Combine, Grouped;
    GroupOfOne(b, NOTHING, HOUR);
  }

  lemma {:induction false} FirstDay(minutes: Table, hour: int, row: Row)
    ensures Step(Store(minutes, map[hour := row], map[]), RollDays)
            == Store(minutes, map[hour := row], map[Group(hour, DAY) := Combine(row, NOTHING)])
  {
    hide Group, Combine, Grouped;
    GroupOfOne(hour, row, DAY);
  }

  /** The group outlives its only minute, and no later rollup removes it. */
  lemma {:induction false} UnsafeBucketGoesStale(b: int)
    requires !Safe(b)
    ensures !ExactViews(Run(StaleRun(b)))
  {
    hide Run, Step, Safe, Group, Combine, ExactViews, LateGroup;
    var h := StaleRun(b);
    RunNothing(h);
    RunPrefix(h, 0);
    RunPrefix(h, 1);
    RunPrefix(h, 2);
    RunPrefix(h, 3);
    FirstRecord(b);
    FirstHour(b);
    FirstDay(map[b := NOTHING], Group(b, HOUR), Combine(NOTHING, NOTHING));
    HoursMakeDays(b);
    assert h[..4] == h;
    StaleGroupStays(b, Run(h[..3]), Run(h));
  }

  lemma {:induction false} RunNothing(h: seq<Event>)
    ensures Run(h[..0]) == EMPTY
  {
  }

  lemma StaleGroupStays(b: int, before: Store, after: Store)
    requires !Safe(b) && before.minutes == map[b := NOTHING]
    requires Group(b, HOUR) in before.hours && Group(b, DAY) in before.days
    requires after == Step(before, Prune(LateGroup(b)))
    ensures !ExactViews(after)
  {
    assert LateGroup(b) > b;
    hide Group;
    assert after.minutes == map[];
    GroupOfNone(HOUR);
    GroupOfNone(DAY);
    if Group(b, HOUR) > b {
      assert Group(b, HOUR) in after.hours;
    } else {
      assert Group(b, DAY) in after.days;
    }
  }

  /** A bucket never spoils the views, whatever else happens to the tables, exactly when it is safe. */
  lemma ExactIffSafe(b: int)
    ensures (forall h :: RecordsOnly(h, b) ==> ExactViews(Run(h))) <==> Safe(b)
  {
    if Safe(b) {
      forall h | RecordsOnly(h, b)
        ensures ExactViews(Run(h))
      {
        RollupsAreExactViews(h);
      }
    } else {
      UnsafeBucketGoesStale(b);
      assert RecordsOnly(StaleRun(b), b);
    }
  }
}
