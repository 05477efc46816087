/** Per-query statistics: kept in memory by the collector, drained now and then, and added to the stored
    rows.  Durations are whole nanoseconds in memory and whole microseconds in storage. */
module QueryStats {
  import opened Prelude
  import opened Sums

  type Hash = nat

  /** `Duration::MAX` in nanoseconds. */
  const FOREVER: nat := (U64 - 1) * 1_000_000_000 + 999_999_999

  type Duration = n: nat | n <= FOREVER

  datatype Stats = Stats(count: nat, totalNs: nat, minNs: Duration, maxNs: Duration)

  const NEW := Stats(0, 0, FOREVER, 0)

  datatype Stored = Stored(count: nat, totalUs: nat, minUs: nat, maxUs: nat)

  function Micros(ns: nat): nat { ns / 1000 }

  // ---------------------------------------------------------------- collector and storage

  function Recorded(s: Stats, d: Duration): Stats {
    Stats(s.count + 1, s.totalNs + d, Min(s.minNs, d), Max(s.maxNs, d))
  }

  function RecordIn(m: map<Hash, Stats>, hash: Hash, d: Duration): map<Hash, Stats> {
    m[hash := Recorded(if hash in m then m[hash] else NEW, d)]
  }

  /** The stored row after adding one drained statistic: an insert or an update. */
  function Upsert(row: Option<Stored>, s: Stats): Stored {
    match row
    case None => Stored(s.count, Micros(s.totalNs), Micros(s.minNs), Micros(s.maxNs))
    case Some(r) => Stored(r.count + s.count, r.totalUs + Micros(s.totalNs),
                           Min(r.minUs, Micros(s.minNs)), Max(r.maxUs, Micros(s.maxNs)))
  }

  function Row(db: map<Hash, Stored>, hash: Hash): Option<Stored> {
    if hash in db then Some(db[hash]) else None
  }

  function Flushed(db: map<Hash, Stored>, batch: map<Hash, Stats>): map<Hash, Stored> {
    map h | h in db.Keys + batch.Keys :: if h in batch then Upsert(Row(db, h), batch[h]) else db[h]
  }

  /** One statistic of a drained batch. */
  datatype Entry = Entry(hash: Hash, stats: Stats)

  /** A batch as the map it was drained from; its order does not matter while hashes are distinct. */
  function AsMap(entries: seq<Entry>): map<Hash, Stats> {
    if entries == [] then map[]
    else AsMap(entries[..|entries| - 1])[entries[|entries| - 1].hash := entries[|entries| - 1].stats]
  }

  predicate Distinct(entries: seq<Entry>) {
    entries == [] ||
    (Distinct(entries[..|entries| - 1]) && entries[|entries| - 1].hash !in AsMap(entries[..|entries| - 1]))
  }

  lemma {:induction false} DistinctPrefix(entries: seq<Entry>, i: nat)
    requires Distinct(entries) && i <= |entries|
    ensures Distinct(entries[..i])
    decreases |entries|
  {
    if i == |entries| {
      assert entries[..i] == entries;
    } else {
      assert entries[..|entries| - 1][..i] == entries[..i];
      DistinctPrefix(entries[..|entries| - 1], i);
    }
  }

  lemma FlushedMore(db: map<Hash, Stored>, done: map<Hash, Stats>, h: Hash, s: Stats)
    requires h !in done
    ensures Row(Flushed(db, done), h) == Row(db, h)
    ensures Flushed(db, done[h := s]) == Flushed(db, done)[h := Upsert(Row(db, h), s)]
  {
  }

  class Collector {
    var stats: map<Hash, Stats>

    constructor ()
      ensures stats == map[]
    {
      stats := map[];
    }

    /** One event of the aggregation loop. */
    method Record(hash: Hash, d: Duration)
      modifies this
      ensures stats == RecordIn(old(stats), hash, d)
    {
      var s := if hash in stats then stats[hash] else NEW;
      s := s.(count := s.count + 1, totalNs := s.totalNs + d);
      s := s.(minNs := Min(s.minNs, d));
      s := s.(maxNs := Max(s.maxNs, d));
      stats := stats[hash := s];
    }

    method Drain() returns (entries: seq<Entry>)
      modifies this
      ensures Distinct(entries) && AsMap(entries) == old(stats) && stats == map[]
    {
      entries := [];
      var left := stats.Keys;
      while left != {}
        invariant left <= stats.Keys && stats == old(stats)
        invariant Distinct(entries) && AsMap(entries) == stats - left
        decreases left
      {
        ghost var some := Member(left);
        var h :| h in left;
        var more := entries + [Entry(h, stats[h])];
        assert more[..|more| - 1] == entries;
        assert stats - (left - {h}) == (stats - left)[h := stats[h]];
        entries := more;
        left := left - {h};
      }
      assert stats - {} == stats;
      stats := map[];
    }
  }

  class AnalyticsStorage {
    var rows: map<Hash, Stored>

    constructor ()
      ensures rows == map[]
    {
      rows := map[];
    }

    /** One upsert per entry. */
    method Flush(entries: seq<Entry>)
      requires Distinct(entries)
      modifies this
      ensures rows == Flushed(old(rows), AsMap(entries))
    {
      assert Flushed(rows, map[]) == rows;
      for i := 0 to |entries|
        invariant rows == Flushed(old(rows), AsMap(entries[..i]))
      {
        var e := entries[i];
        DistinctPrefix(entries, i + 1);
        assert entries[..i + 1][..i] == entries[..i];
        FlushedMore(old(rows), AsMap(entries[..i]), e.hash, e.stats);
        hide Flushed, Upsert;
        rows := rows[e.hash := Upsert(Row(rows, e.hash), e.stats)];
      }
      assert entries[..|entries|] == entries;
    }

    /** `load_total_query_count` */
    method LoadTotalQueryCount() returns (total: nat)
      ensures total == Sum(CountsStored(rows))
    {
      total := 0;
      var left := rows;
      while left != map[]
        invariant total + Sum(CountsStored(left)) == Sum(CountsStored(rows))
        decreases left
      {
        ghost var some := Member(left.Keys);
        assert some in left;
        var h :| h in left;
        SumRemove(CountsStored(left), h);
        assert CountsStored(left) - {h} == CountsStored(left - {h});
        total := total + left[h].count;
        left := left - {h};
      }
      assert CountsStored(left) == map[];
    }
  }

  // ---------------------------------------------------------------- runs

  /** The flush loop drains into a batch and then commits it or fails; recording goes on meanwhile. */
  datatype World = World(memory: map<Hash, Stats>, batch: map<Hash, Stats>, db: map<Hash, Stored>)

  datatype Event = Record(hash: Hash, d: Duration) | Drain | Commit | Fail

  /** Draining waits for the previous batch: it does nothing while one is under way. */
  function Step(w: World, e: Event): World {
    match e
    case Record(h, d) => w.(memory := RecordIn(w.memory, h, d))
    case Drain => if w.batch == map[] then World(map[], w.memory, w.db) else w
    case Commit => World(w.memory, map[], Flushed(w.db, w.batch))
    case Fail => w.(batch := map[])
  }

  function Run(h: seq<Event>): World {
    if h == [] then World(map[], map[], map[]) else Step(Run(h[..|h| - 1]), h[|h| - 1])
  }

  /** The whole event history of one query. */
  function Whole(h: seq<Event>, hash: Hash): Stats {
    if h == [] then NEW
    else
      var before := Whole(h[..|h| - 1], hash);
      var e := h[|h| - 1];
      if e.Record? && e.hash == hash then Recorded(before, e.d) else before
  }

  function At(m: map<Hash, Stats>, hash: Hash): Stats { if hash in m then m[hash] else NEW }

  function StoredCount(db: map<Hash, Stored>, hash: Hash): nat { if hash in db then db[hash].count else 0 }

  function StoredTotal(db: map<Hash, Stored>, hash: Hash): nat { if hash in db then db[hash].totalUs else 0 }

  function StoredMin(db: map<Hash, Stored>, hash: Hash): nat { if hash in db then db[hash].minUs else Micros(FOREVER) }

  function StoredMax(db: map<Hash, Stored>, hash: Hash): nat { if hash in db then db[hash].maxUs else 0 }

  predicate NeverFails(h: seq<Event>) { Fail !in h }

  /** How many commits carried a statistic of this query. */
  function Flushes(h: seq<Event>, hash: Hash): nat {
    if h == [] then 0
    else Flushes(h[..|h| - 1], hash) + if h[|h| - 1].Commit? && hash in Run(h[..|h| - 1]).batch then 1 else 0
  }

  lemma MicrosOfMin(a: nat, b: nat)
    ensures Micros(Min(a, b)) == Min(Micros(a), Micros(b)) && Micros(Max(a, b)) == Max(Micros(a), Micros(b))
  {
  }

  /** Stored, drained and in-memory statistics together are the whole history: counts add up, extremes
      agree to the microsecond, and the nanoseconds committed exceed the stored microseconds by at most
      999 for each flush. */
  ghost predicate Accounts(w: World, whole: Stats, flushes: nat, hash: Hash) {
    var m, b := At(w.memory, hash), At(w.batch, hash);
    && whole.count == StoredCount(w.db, hash) + b.count + m.count
    && Micros(whole.minNs) == Min(StoredMin(w.db, hash), Min(Micros(b.minNs), Micros(m.minNs)))
    && Micros(whole.maxNs) == Max(StoredMax(w.db, hash), Max(Micros(b.maxNs), Micros(m.maxNs)))
    && StoredMin(w.db, hash) <= Micros(FOREVER)
    && 0 <= whole.totalNs - b.totalNs - m.totalNs - 1000 * StoredTotal(w.db, hash) <= 999 * flushes
  }

  lemma ExtremesAssociate(s: nat, b: nat, m: nat, d: nat)
    ensures Min(Min(s, Min(b, m)), d) == Min(s, Min(b, Min(m, d)))
    ensures Max(Max(s, Max(b, m)), d) == Max(s, Max(b, Max(m, d)))
  {
  }

  lemma RecordAccounts(w: World, whole: Stats, flushes: nat, hash: Hash, e: Event)
    requires e.Record? && Accounts(w, whole, flushes, hash)
    ensures Accounts(Step(w, e), if e.hash == hash then Recorded(whole, e.d) else whole, flushes, hash)
  {
    var m, b := At(w.memory, hash), At(w.batch, hash);
    var w' := Step(w, e);
    if e.hash == hash {
      MicrosOfMin(whole.minNs, e.d);
      MicrosOfMin(whole.maxNs, e.d);
      MicrosOfMin(m.minNs, e.d);
      MicrosOfMin(m.maxNs, e.d);
      ExtremesAssociate(StoredMin(w.db, hash), Micros(b.minNs), Micros(m.minNs), Micros(e.d));
      ExtremesAssociate(StoredMax(w.db, hash), Micros(b.maxNs), Micros(m.maxNs), Micros(e.d));
      assert At(w'.memory, hash) == Recorded(m, e.d);
      hide Micros, Min, Max, StoredMin, StoredMax, StoredTotal, StoredCount;
    } else {
      assert At(w'.memory, hash) == m;
      hide Micros, Min, Max, StoredMin, StoredMax, StoredTotal, StoredCount;
    }
  }

  lemma CommitAccounts(w: World, whole: Stats, flushes: nat, hash: Hash)
    requires Accounts(w, whole, flushes, hash)
    ensures Accounts(Step(w, Commit), whole, flushes + (if hash in w.batch then 1 else 0), hash)
  {
    var w' := Step(w, Commit);
    assert Row(w'.db, hash) == if hash in w.batch then Some(Upsert(Row(w.db, hash), w.batch[hash])) else Row(w.db, hash);
    assert Micros(NEW.minNs) == Micros(FOREVER) && Micros(0) == 0;
    var b := At(w.batch, hash);
    assert b.totalNs - 999 <= 1000 * Micros(b.totalNs) <= b.totalNs;
    MicrosBelow(b.minNs, FOREVER);
    hide Micros, Flushed;
  }

  lemma MicrosBelow(a: nat, b: nat)
    requires a <= b
    ensures Micros(a) <= Micros(b)
  {
  }

  lemma {:induction false} HistoryIsAccountedFor(h: seq<Event>, hash: Hash)
    requires NeverFails(h)
    ensures Accounts(Run(h), Whole(h, hash), Flushes(h, hash), hash)
  {
    if h != [] {
      var front, e := h[..|h| - 1], h[|h| - 1];
      HistoryIsAccountedFor(front, hash);
      var w := Run(front);
      assert e in h;
      if e.Record? {
        RecordAccounts(w, Whole(front, hash), Flushes(front, hash), hash, e);
        hide Accounts;
      } else if e.Commit? {
        CommitAccounts(w, Whole(front, hash), Flushes(front, hash), hash);
        hide Accounts;
      } else {
        hide Micros;
      }
    } else {
      assert Micros(0) == 0;
    }
  }

  lemma {:induction false} CommittedExtremes(w: World, whole: Stats, flushes: nat, hash: Hash)
    requires Accounts(w, whole, flushes, hash) && hash !in w.memory && hash !in w.batch && hash in w.db
    ensures w.db[hash].minUs == Micros(whole.minNs) && w.db[hash].maxUs == Micros(whole.maxNs)
  {
    assert Micros(NEW.maxNs) == 0;
    MicrosBelow(whole.minNs, FOREVER);
    hide Micros;
  }

  lemma {:induction false} CommittedRow(w: World, whole: Stats, flushes: nat, hash: Hash)
    requires Accounts(w, whole, flushes, hash) && hash !in w.memory && hash !in w.batch && hash in w.db
    ensures var row := w.db[hash];
            && row.count == whole.count
            && row.minUs == Micros(whole.minNs) && row.maxUs == Micros(whole.maxNs)
            && row.totalUs <= Micros(whole.totalNs)
            && (Micros(whole.totalNs) - row.totalUs < flushes || Micros(whole.totalNs) == row.totalUs)
  {
    CommittedExtremes(w, whole, flushes, hash);
    hide Min, Max, StoredMin, StoredMax;
  }

  /** Once everything of a query is committed, its stored row is the whole history: the exact count, the
      extremes to the microsecond, and a total that never exceeds the true one and falls short by less
      than one microsecond a flush. */
  lemma FlushedRowIsWholeHistory(h: seq<Event>, hash: Hash)
    requires NeverFails(h)
    requires hash !in Run(h).memory && hash !in Run(h).batch && hash in Run(h).db
    ensures var row, whole := Run(h).db[hash], Whole(h, hash);
            && row.count == whole.count
            && row.minUs == Micros(whole.minNs) && row.maxUs == Micros(whole.maxNs)
            && row.totalUs <= Micros(whole.totalNs)
            && (Micros(whole.totalNs) - row.totalUs < Flushes(h, hash) || Micros(whole.totalNs) == row.totalUs)
  {
    hide Run, Whole, Flushes, Accounts, Micros;
    HistoryIsAccountedFor(h, hash);
    CommittedRow(Run(h), Whole(h, hash), Flushes(h, hash), hash);
  }

  // ---------------------------------------------------------------- against the recorded durations

  /** The durations recorded for a query, in order. */
  function Durations(h: seq<Event>, hash: Hash): seq<nat> {
    if h == [] then []
    else
      var e := h[|h| - 1];
      Durations(h[..|h| - 1], hash) + if e.Record? && e.hash == hash then [e.d] else []
  }

  function Together(ds: seq<nat>): nat {
    if ds == [] then 0 else Together(ds[..|ds| - 1]) + ds[|ds| - 1]
  }

  predicate IsLeast(ds: seq<nat>, d: nat) { d in ds && forall x :: x in ds ==> d <= x }

  predicate IsGreatest(ds: seq<nat>, d: nat) { d in ds && forall x :: x in ds ==> x <= d }

  lemma {:induction false} OneMore(ds: seq<nat>, d: nat)
    ensures Together(ds + [d]) == Together(ds) + d
    ensures forall x :: x in ds + [d] <==> x in ds || x == d
  {
    assert (ds + [d])[..|ds|] == ds;
  }

  /** The statistic folded over the history is the count, sum, least and greatest of the durations. */
  lemma {:induction false} WholeIsDurations(h: seq<Event>, hash: Hash)
    ensures var whole, ds := Whole(h, hash), Durations(h, hash);
            && whole.count == |ds| && whole.totalNs == Together(ds)
            && (ds == [] ==> whole == NEW)
            && (ds != [] ==> IsLeast(ds, whole.minNs) && IsGreatest(ds, whole.maxNs))
            && (forall d :: d in ds ==> d <= FOREVER)
  {
    assert Together([]) == 0;
    if h != [] {
      var front, e := h[..|h| - 1], h[|h| - 1];
      var before := Durations(front, hash);
      WholeIsDurations(front, hash);
      hide Together;
      if e.Record? && e.hash == hash {
        OneMore(before, e.d);
        assert Durations(h, hash) == before + [e.d] && Whole(h, hash) == Recorded(Whole(front, hash), e.d);
        hide Whole, Durations;
      } else {
        assert Durations(h, hash) == before && Whole(h, hash) == Whole(front, hash);
        hide Whole, Durations;
      }
    }
  }

  /** Whether committed or not: the stored, drained and in-memory counts add up to the number of durations
      recorded; in microseconds the least and greatest of all three are those of the durations; and the
      durations add up to what is in memory and drained, plus the stored microseconds, plus less than one
      microsecond a flush. */
  lemma {:induction false} DurationsAreAccountedFor(h: seq<Event>, hash: Hash)
    requires NeverFails(h)
    ensures var w, ds := Run(h), Durations(h, hash);
            var m, b := At(w.memory, hash), At(w.batch, hash);
            && |ds| == StoredCount(w.db, hash) + b.count + m.count
            && 0 <= Together(ds) - b.totalNs - m.totalNs - 1000 * StoredTotal(w.db, hash) <= 999 * Flushes(h, hash)
            && (ds != [] ==> exists least: nat, greatest: nat ::
                  && IsLeast(ds, least) && IsGreatest(ds, greatest)
                  && least / 1000 == Min(StoredMin(w.db, hash), Min(b.minNs / 1000, m.minNs / 1000))
                  && greatest / 1000 == Max(StoredMax(w.db, hash), Max(b.maxNs / 1000, m.maxNs / 1000)))
  {
    HistoryIsAccountedFor(h, hash);
    WholeIsDurations(h, hash);
    var least, greatest := Whole(h, hash).minNs, Whole(h, hash).maxNs;
    hide Run, Whole, Durations, Flushes, Together, IsLeast, IsGreatest, Min, Max;
  }

  /** Once everything of a query is committed, its row holds the number of durations recorded, their least
      and greatest in microseconds, and their sum in microseconds less the fraction lost at each flush. */
  lemma {:induction false} RowHoldsDurations(h: seq<Event>, hash: Hash)
    requires NeverFails(h)
    requires hash !in Run(h).memory && hash !in Run(h).batch && hash in Run(h).db && Durations(h, hash) != []
    ensures var row, ds := Run(h).db[hash], Durations(h, hash);
            && row.count == |ds|
            && (exists least: nat, greatest: nat ::
                  && IsLeast(ds, least) && row.minUs == least / 1000
                  && IsGreatest(ds, greatest) && row.maxUs == greatest / 1000)
            && row.totalUs <= Together(ds) / 1000
            && (Together(ds) / 1000 - row.totalUs < Flushes(h, hash) || Together(ds) / 1000 == row.totalUs)
  {
    FlushedRowIsWholeHistory(h, hash);
    WholeIsDurations(h, hash);
    var least, greatest := Whole(h, hash).minNs, Whole(h, hash).maxNs;
    assert IsLeast(Durations(h, hash), least) && IsGreatest(Durations(h, hash), greatest);
    hide Run, Whole, Durations, Flushes, Together, IsLeast, IsGreatest;
  }

  /** One query of five milliseconds, drained and committed. */
  lemma {:induction false} FiveMilliseconds()
    ensures var h: seq<Event> := [Record(7, 5_000_000), Drain, Commit]; Run(h).db == map[7 := Stored(1, 5000, 5000, 5000)]
  {
    var h: seq<Event> := [Record(7, 5_000_000), Drain, Commit];
    var s := Stats(1, 5_000_000, 5_000_000, 5_000_000);
    assert h[..2][..1] == [Record(7, 5_000_000)] && h[..2][..1][..0] == [];
    assert Run(h[..2][..1]) == World(map[7 := s], map[], map[]);
    assert Run(h[..2]) == World(map[], map[7 := s], map[]);
  }

  // ---------------------------------------------------------------- totals over all queries

  function CountsStored(db: map<Hash, Stored>): map<Hash, nat> { map h | h in db :: db[h].count }

  function Counts(m: map<Hash, Stats>): map<Hash, nat> { map h | h in m :: m[h].count }

  function Records(h: seq<Event>): nat {
    if h == [] then 0 else Records(h[..|h| - 1]) + if h[|h| - 1].Record? then 1 else 0
  }

  /** The events of the batches that failed: drained from memory and never stored. */
  ghost function Lost(h: seq<Event>): nat {
    if h == [] then 0
    else Lost(h[..|h| - 1]) + if h[|h| - 1].Fail? then Sum(Counts(Run(h[..|h| - 1]).batch)) else 0
  }

  /** Adding up two maps of counts, key by key. */
  function Added(a: map<Hash, nat>, b: map<Hash, nat>): map<Hash, nat> {
    map h | h in a.Keys + b.Keys :: (if h in a then a[h] else 0) + (if h in b then b[h] else 0)
  }

  lemma AddedMore(a: map<Hash, nat>, b: map<Hash, nat>, k: Hash)
    requires k in b
    ensures var before := Added(a, b - {k});
            && (k in before <==> k in a) && (k in a ==> before[k] == a[k])
            && Added(a, b) == before[k := (if k in a then a[k] else 0) + b[k]]
  {
  }

  lemma {:induction false} SumAdded(a: map<Hash, nat>, b: map<Hash, nat>)
    ensures Sum(Added(a, b)) == Sum(a) + Sum(b)
    decreases b
  {
    if b == map[] {
      assert Added(a, b) == a;
    } else {
      var k := Member(b.Keys);
      SumAdded(a, b - {k});
      SumRemove(b, k);
      AddedMore(a, b, k);
      SumUpdate(Added(a, b - {k}), k, (if k in a then a[k] else 0) + b[k]);
      hide Added, Sum;
    }
  }

  lemma CommitAddsCounts(w: World)
    ensures Sum(CountsStored(Flushed(w.db, w.batch))) == Sum(CountsStored(w.db)) + Sum(Counts(w.batch))
  {
    assert CountsStored(Flushed(w.db, w.batch)) == Added(CountsStored(w.db), Counts(w.batch));
    SumAdded(CountsStored(w.db), Counts(w.batch));
  }

  lemma RecordAddsOne(m: map<Hash, Stats>, hash: Hash, d: Duration)
    ensures Sum(Counts(RecordIn(m, hash, d))) == Sum(Counts(m)) + 1
  {
    var n := At(m, hash).count + 1;
    assert Counts(RecordIn(m, hash, d)) == Counts(m)[hash := n];
    SumUpdate(Counts(m), hash, n);
  }

  /** The events held anywhere. */
  ghost function Held(w: World): nat {
    Sum(CountsStored(w.db)) + Sum(Counts(w.batch)) + Sum(Counts(w.memory))
  }

  lemma {:induction false} NothingCounts()
    ensures Sum(CountsStored(map[])) == 0 && Sum(Counts(map[])) == 0
  {
    assert CountsStored(map[]) == map[] && Counts(map[]) == map[];
  }

  lemma {:induction false} StepHolds(w: World, e: Event)
    ensures Held(Step(w, e)) + (if e.Fail? then Sum(Counts(w.batch)) else 0) == Held(w) + if e.Record? then 1 else 0
  {
    hide CountsStored, Counts, Flushed, RecordIn, Sum;
    NothingCounts();
    match e
    case Record(hash, d) => RecordAddsOne(w.memory, hash, d);
    case Drain =>
    case Commit => CommitAddsCounts(w);
    case Fail =>
  }

  /** The restored query counter: stored, drained, in memory and lost events are all the events. */
  lemma {:induction false} NoEventCountedTwice(h: seq<Event>)
    ensures var w := Run(h);
            Sum(CountsStored(w.db)) + Sum(Counts(w.batch)) + Sum(Counts(w.memory)) + Lost(h) == Records(h)
  {
    NothingCounts();
    if h != [] {
      NoEventCountedTwice(h[..|h| - 1]);
      hide Step, CountsStored, Counts, Sum;
      StepHolds(Run(h[..|h| - 1]), h[|h| - 1]);
    }
  }
}
