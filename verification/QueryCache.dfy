/** The query-result cache: expiry per entry, eviction of the least recently used entry at capacity,
    invalidation by table.  Proved against the plain history of operations. */
module QueryCache {
  import opened Prelude

  type Bytes = seq<int>

  /** What the cache asks about a query text: may it be cached, and which tables does it name. */
  datatype Policy = Policy(cacheable: string -> bool, tablesOf: string -> seq<string>)

  datatype Config = Config(policy: Policy, ttl: nat, maxEntries: nat)

  datatype Entry = Entry(bytes: Bytes, tables: seq<string>, expiresAt: nat, lastUsed: nat)

  datatype State = State(entries: map<string, Entry>, hits: nat, misses: nat)

  const EMPTY := State(map[], 0, 0)

  predicate Shares(tables: seq<string>, others: seq<string>) {
    exists i :: 0 <= i < |tables| && tables[i] in others
  }

  // ---------------------------------------------------------------- operations on values

  /** Operations in the order in which they hold the lock.  `victim` is the key a put evicts: the map
      may hold several entries of equal age, and its iteration order decides between them. */
  datatype Op =
    | Get(sql: string, now: nat)
    | Put(sql: string, bytes: Bytes, now: nat, victim: Option<string>)
    | Invalidate(tables: seq<string>)

  function Hit(s: State, sql: string, now: nat): Option<Bytes> {
    if sql in s.entries && s.entries[sql].expiresAt > now then Some(s.entries[sql].bytes) else None
  }

  predicate Oldest(entries: map<string, Entry>, k: string) {
    k in entries && forall j :: j in entries ==> entries[k].lastUsed <= entries[j].lastUsed
  }

  /** A put at capacity names an oldest entry as its victim, and any other put names none. */
  predicate Enabled(cfg: Config, s: State, op: Op) {
    op.Put? && cfg.policy.cacheable(op.sql) ==>
      match op.victim
      case None => |s.entries| < cfg.maxEntries || s.entries == map[]
      case Some(k) => |s.entries| >= cfg.maxEntries && Oldest(s.entries, k)
  }

  function Step(cfg: Config, s: State, op: Op): State {
    match op
    case Get(sql, now) =>
      if Hit(s, sql, now).Some?
      then s.(entries := s.entries[sql := s.entries[sql].(lastUsed := now)], hits := s.hits + 1)
      else s.(entries := s.entries - {sql}, misses := s.misses + 1)
    case Put(sql, bytes, now, victim) =>
      if !cfg.policy.cacheable(sql) then s
      else
        var kept := if victim.Some? then s.entries - {victim.value} else s.entries;
        s.(entries := kept[sql := Entry(bytes, cfg.policy.tablesOf(sql), now + cfg.ttl, now)])
    case Invalidate(tables) =>
      s.(entries := map k | k in s.entries && !Shares(s.entries[k].tables, tables) :: s.entries[k])
  }

  class Cache {
    var entries: map<string, Entry>
    var hits: nat
    var misses: nat
    const cfg: Config

    constructor (cfg: Config)
      ensures Value() == EMPTY && this.cfg == cfg
    {
      entries, hits, misses := map[], 0, 0;
      this.cfg := cfg;
    }

    function Value(): State
      reads this
    {
      State(entries, hits, misses)
    }

    method Lookup(sql: string, now: nat) returns (r: Option<Bytes>)
      modifies this
      ensures r == Hit(old(Value()), sql, now)
      ensures Value() == Step(cfg, old(Value()), Get(sql, now))
    {
      if sql in entries {
        var entry := entries[sql];
        if entry.expiresAt > now {
          entries := entries[sql := entry.(lastUsed := now)];
          hits := hits + 1;
          return Some(entry.bytes);
        }
        entries := entries - {sql};
      }
      misses := misses + 1;
      assert entries == old(entries) - {sql};
      return None;
    }

    method Store(sql: string, bytes: Bytes, now: nat) returns (ghost victim: Option<string>)
      modifies this
      ensures Enabled(cfg, old(Value()), Put(sql, bytes, now, victim))
      ensures Value() == Step(cfg, old(Value()), Put(sql, bytes, now, victim))
    {
      victim := None;
      if !cfg.policy.cacheable(sql) { return; }
      var entry := Entry(bytes, cfg.policy.tablesOf(sql), now + cfg.ttl, now);
      if |entries| >= cfg.maxEntries {
        var oldest := FindOldest();
        if oldest.Some? {
          victim := oldest;
          entries := entries - {oldest.value};
        }
      }
      entries := entries[sql := entry];
    }

    method FindOldest() returns (k: Option<string>)
      ensures k.None? ==> entries == map[]
      ensures k.Some? ==> Oldest(entries, k.value)
    {
      k := None;
      var left := entries.Keys;
      while left != {}
        invariant left <= entries.Keys
        invariant k.None? ==> left == entries.Keys
        invariant k.Some? ==> k.value in entries
        invariant k.Some? ==> forall j :: j in entries && j !in left ==> entries[k.value].lastUsed <= entries[j].lastUsed
        decreases left
      {
        var j :| j in left;
        if k.None? || entries[j].lastUsed < entries[k.value].lastUsed { k := Some(j); }
        left := left - {j};
      }
    }

    method InvalidateTables(tables: seq<string>)
      modifies this
      ensures Value() == Step(cfg, old(Value()), Invalidate(tables))
      ensures forall k :: k in entries <==>
                k in old(entries) && forall t :: t in old(entries)[k].tables ==> t !in tables
    {
      forall k | k in entries
        ensures Shares(entries[k].tables, tables) <==> exists t :: t in entries[k].tables && t in tables
      {
        SharesMeans(entries[k].tables, tables);
      }
      if tables == [] {
        assert entries == map k | k in entries && !Shares(entries[k].tables, tables) :: entries[k];
        return;
      }
      entries := map k | k in entries && !Shares(entries[k].tables, tables) :: entries[k];
    }
  }

  // ---------------------------------------------------------------- runs

  function Run(cfg: Config, h: seq<Op>): State {
    if h == [] then EMPTY else Step(cfg, Run(cfg, h[..|h| - 1]), h[|h| - 1])
  }

  /** Every put of the run evicted only as the cache does. */
  predicate Possible(cfg: Config, h: seq<Op>) {
    h == [] || (Possible(cfg, h[..|h| - 1]) && Enabled(cfg, Run(cfg, h[..|h| - 1]), h[|h| - 1]))
  }

  // ---------------------------------------------------------------- hits against the history

  datatype Stored = Stored(bytes: Bytes, at: nat)

  /** The latest put of `sql`, unless a table of `sql` was invalidated since: no map, no eviction. */
  function LatestPut(cfg: Config, h: seq<Op>, sql: string): Option<Stored> {
    if h == [] then None
    else
      var before := LatestPut(cfg, h[..|h| - 1], sql);
      match h[|h| - 1]
      case Get(_, _) => before
      case Put(q, bytes, now, _) =>
        if q == sql && cfg.policy.cacheable(sql) then Some(Stored(bytes, now)) else before
      case Invalidate(tables) =>
        if Shares(cfg.policy.tablesOf(sql), tables) then None else before
  }

  /** What a cache without capacity would answer. */
  function Fresh(cfg: Config, h: seq<Op>, sql: string, now: nat): Option<Bytes> {
    var p :- LatestPut(cfg, h, sql);
    if now < p.at + cfg.ttl then Some(p.bytes) else None
  }

  /** Every entry is the latest put of its key. */
  lemma {:induction false} EntriesAreLatestPuts(cfg: Config, h: seq<Op>, sql: string)
    requires sql in Run(cfg, h).entries
    ensures var e := Run(cfg, h).entries[sql];
            && LatestPut(cfg, h, sql).Some?
            && e.bytes == LatestPut(cfg, h, sql).value.bytes
            && e.expiresAt == LatestPut(cfg, h, sql).value.at + cfg.ttl
            && e.tables == cfg.policy.tablesOf(sql)
  {
    var front := h[..|h| - 1];
    if sql in Run(cfg, front).entries { EntriesAreLatestPuts(cfg, front, sql); }
  }

  /** In the plain terms of the history: `h[i]` put `bytes` under `sql`, and nothing after it put that
      key again or invalidated one of its tables. */
  predicate StandsSince(cfg: Config, h: seq<Op>, sql: string, i: nat) {
    && i < |h| && h[i].Put? && h[i].sql == sql && cfg.policy.cacheable(sql)
    && forall j :: i < j < |h| ==>
         && !(h[j].Put? && h[j].sql == sql)
         && !(h[j].Invalidate? && exists t :: t in cfg.policy.tablesOf(sql) && t in h[j].tables)
  }

  lemma {:induction false} SharesMeans(tables: seq<string>, others: seq<string>)
    ensures Shares(tables, others) <==> exists t :: t in tables && t in others
  {
    if Shares(tables, others) {
      var i :| 0 <= i < |tables| && tables[i] in others;
      assert tables[i] in tables;
    }
  }

  lemma {:induction false} LatestPutStands(cfg: Config, h: seq<Op>, sql: string)
    ensures LatestPut(cfg, h, sql).Some? ==>
              exists i: nat :: StandsSince(cfg, h, sql, i) &&
                LatestPut(cfg, h, sql) == Some(Stored(h[i].bytes, h[i].now))
    ensures LatestPut(cfg, h, sql).None? ==> forall i: nat :: !StandsSince(cfg, h, sql, i)
  {
    if h != [] {
      var n := |h| - 1;
      var front := h[..n];
      LatestPutStands(cfg, front, sql);
      forall i: nat | i < n
        ensures StandsSince(cfg, h, sql, i) ==> StandsSince(cfg, front, sql, i)
      {
        if StandsSince(cfg, h, sql, i) {
          assert forall j :: i < j < n ==> front[j] == h[j];
        }
      }
      if h[n].Invalidate? { SharesMeans(cfg.policy.tablesOf(sql), h[n].tables); }
      if LatestPut(cfg, h, sql).Some? {
        if h[n].Put? && h[n].sql == sql && cfg.policy.cacheable(sql) {
          assert StandsSince(cfg, h, sql, n);
        } else {
          var i: nat :| StandsSince(cfg, front, sql, i) &&
            LatestPut(cfg, front, sql) == Some(Stored(front[i].bytes, front[i].now));
          assert h[i] == front[i];
          assert StandsSince(cfg, h, sql, i);
        }
      }
    }
  }

  /** A hit returns the bytes of the latest put of that query, put less than the time to live before,
      with no later invalidation of a table it names: for every clock and every order of operations. */
  lemma HitsRefineHistory(cfg: Config, h: seq<Op>, sql: string, now: nat)
    requires Hit(Run(cfg, h), sql, now).Some?
    ensures Hit(Run(cfg, h), sql, now) == Fresh(cfg, h, sql, now)
    ensures exists i: nat :: StandsSince(cfg, h, sql, i)
              && Hit(Run(cfg, h), sql, now) == Some(h[i].bytes) && now < h[i].now + cfg.ttl
  {
    EntriesAreLatestPuts(cfg, h, sql);
    LatestPutStands(cfg, h, sql);
    var i: nat :| StandsSince(cfg, h, sql, i) && LatestPut(cfg, h, sql) == Some(Stored(h[i].bytes, h[i].now));
  }

  // ---------------------------------------------------------------- misses below capacity

  /** The keys ever stored. */
  function PutKeys(cfg: Config, h: seq<Op>): set<string> {
    if h == [] then {}
    else
      var before := PutKeys(cfg, h[..|h| - 1]);
      if h[|h| - 1].Put? && cfg.policy.cacheable(h[|h| - 1].sql) then before + {h[|h| - 1].sql} else before
  }

  lemma {:induction false} EntriesWerePut(cfg: Config, h: seq<Op>)
    ensures Run(cfg, h).entries.Keys <= PutKeys(cfg, h)
    ensures h != [] ==> PutKeys(cfg, h[..|h| - 1]) <= PutKeys(cfg, h)
  {
    if h != [] { EntriesWerePut(cfg, h[..|h| - 1]); }
  }

  /** No lookup reads a later time than `now`. */
  predicate LookupsBefore(h: seq<Op>, now: nat) {
    forall i :: 0 <= i < |h| && h[i].Get? ==> h[i].now <= now
  }

  /** Below capacity an entry outlives an operation unless it is found expired or invalidated. */
  lemma StepKeeps(cfg: Config, s: State, op: Op, k: string)
    requires Enabled(cfg, s, op) && k in s.entries && |s.entries| < cfg.maxEntries
    requires op.Get? ==> op.now < s.entries[k].expiresAt
    requires op.Invalidate? ==> !Shares(s.entries[k].tables, op.tables)
    ensures k in Step(cfg, s, op).entries
  {
  }

  lemma {:induction false} LatestPutsAreEntries(cfg: Config, h: seq<Op>, sql: string, now: nat)
    requires Possible(cfg, h) && LookupsBefore(h, now)
    requires |PutKeys(cfg, h)| < cfg.maxEntries
    requires Fresh(cfg, h, sql, now).Some?
    ensures sql in Run(cfg, h).entries
  {
    var front, op := h[..|h| - 1], h[|h| - 1];
    if op.Put? && op.sql == sql && cfg.policy.cacheable(sql) {
    } else {
      assert Fresh(cfg, front, sql, now).Some?;
      EntriesWerePut(cfg, h);
      EntriesWerePut(cfg, front);
      SubsetSize(PutKeys(cfg, front), PutKeys(cfg, h));
      SubsetSize(Run(cfg, front).entries.Keys, PutKeys(cfg, front));
      assert LookupsBefore(front, now);
      LatestPutsAreEntries(cfg, front, sql, now);
      EntriesAreLatestPuts(cfg, front, sql);
      assert op.Get? ==> op.now <= now;
      assert op.Invalidate? ==> !Shares(cfg.policy.tablesOf(sql), op.tables);
      hide PutKeys, LatestPut, Possible, Shares, Step;
      StepKeeps(cfg, Run(cfg, front), op, sql);
    }
  }

  /** With fewer distinct keys than the capacity, lookups that do not go back in time answer exactly as
      the history does: nothing is lost early. */
  lemma ExactBelowCapacity(cfg: Config, h: seq<Op>, sql: string, now: nat)
    requires Possible(cfg, h) && LookupsBefore(h, now)
    requires |PutKeys(cfg, h)| < cfg.maxEntries
    ensures Hit(Run(cfg, h), sql, now) == Fresh(cfg, h, sql, now)
  {
    if Fresh(cfg, h, sql, now).Some? {
      LatestPutsAreEntries(cfg, h, sql, now);
      EntriesAreLatestPuts(cfg, h, sql);
    } else if Hit(Run(cfg, h), sql, now).Some? {
      HitsRefineHistory(cfg, h, sql, now);
    }
  }

  // ---------------------------------------------------------------- size and eviction

  lemma {:induction false} SizeIsBounded(cfg: Config, h: seq<Op>)
    requires Possible(cfg, h)
    ensures |Run(cfg, h).entries| <= Max(1, cfg.maxEntries)
  {
    if h != [] {
      var s, op := Run(cfg, h[..|h| - 1]), h[|h| - 1];
      SizeIsBounded(cfg, h[..|h| - 1]);
      StepSize(cfg, s, op);
    }
  }

  lemma StepSize(cfg: Config, s: State, op: Op)
    requires Enabled(cfg, s, op) && |s.entries| <= Max(1, cfg.maxEntries)
    ensures |Step(cfg, s, op).entries| <= Max(1, cfg.maxEntries)
  {
    var s' := Step(cfg, s, op);
    match op
    case Get(sql, now) =>
      SubsetSize(s'.entries.Keys, s.entries.Keys);
    case Invalidate(tables) =>
      SubsetSize(s'.entries.Keys, s.entries.Keys);
    case Put(sql, bytes, now, victim) =>
      if cfg.policy.cacheable(sql) {
        var kept := if victim.Some? then s.entries.Keys - {victim.value} else s.entries.Keys;
        assert s'.entries.Keys == kept + {sql};
      }
  }

  /** The operation used `k`: a lookup that hit it, or a put that stored it. */
  predicate Uses(cfg: Config, s: State, op: Op, k: string) {
    match op
    case Get(sql, now) => sql == k && Hit(s, sql, now).Some?
    case Put(sql, _, _, _) => sql == k && cfg.policy.cacheable(sql)
    case Invalidate(_) => false
  }

  predicate UsedAt(cfg: Config, h: seq<Op>, i: nat, k: string) {
    i < |h| && Uses(cfg, Run(cfg, h[..i]), h[i], k)
  }

  /** `i` is the position of the last use of `k`. */
  predicate LastUseAt(cfg: Config, h: seq<Op>, i: nat, k: string) {
    UsedAt(cfg, h, i, k) && forall j: nat :: i < j < |h| ==> !UsedAt(cfg, h, j, k)
  }

  /** Lookups and puts read strictly increasing times. */
  predicate ClockIncreases(h: seq<Op>) {
    forall i, j :: 0 <= i < j < |h| && !h[i].Invalidate? && !h[j].Invalidate? ==> h[i].now < h[j].now
  }

  lemma {:induction false} UseGrows(cfg: Config, h: seq<Op>, op: Op, i: nat, k: string)
    requires i < |h|
    ensures UsedAt(cfg, h + [op], i, k) == UsedAt(cfg, h, i, k)
  {
    assert (h + [op])[..i] == h[..i];
  }

  /** The time kept with an entry is the time of its last use. */
  lemma {:induction false} EntryRemembersLastUse(cfg: Config, h: seq<Op>, k: string) returns (i: nat)
    requires k in Run(cfg, h).entries
    ensures LastUseAt(cfg, h, i, k) && !h[i].Invalidate? && Run(cfg, h).entries[k].lastUsed == h[i].now
  {
    var n := |h| - 1;
    var front, op := h[..n], h[n];
    assert h == front + [op];
    if Uses(cfg, Run(cfg, front), op, k) {
      i := n;
    } else {
      i := EntryRemembersLastUse(cfg, front, k);
      UseGrows(cfg, front, op, i, k);
      forall j: nat | i < j < |h|
        ensures !UsedAt(cfg, h, j, k)
      {
        if j < n { UseGrows(cfg, front, op, j, k); }
      }
    }
  }

  /** `k` was used after position `i`. */
  ghost predicate UsedAfter(cfg: Config, h: seq<Op>, i: nat, k: string) {
    exists j: nat :: i < j < |h| && UsedAt(cfg, h, j, k)
  }

  /** With a strictly increasing clock an eviction for capacity removes a key only after at least
      `maxEntries - 1` other keys were used since its last use. */
  lemma EvictsLeastRecentlyUsed(cfg: Config, h: seq<Op>, op: Op)
    requires ClockIncreases(h) && Enabled(cfg, Run(cfg, h), op)
    requires op.Put? && cfg.policy.cacheable(op.sql) && op.victim.Some?
    ensures exists i: nat, others: set<string> ::
              && LastUseAt(cfg, h, i, op.victim.value)
              && op.victim.value !in others && |others| >= cfg.maxEntries - 1
              && forall k :: k in others ==> UsedAfter(cfg, h, i, k)
  {
    var v := op.victim.value;
    var entries := Run(cfg, h).entries;
    var i := EntryRemembersLastUse(cfg, h, v);
    var others := entries.Keys - {v};
    assert entries.Keys == others + {v};
    forall k | k in others
      ensures UsedAfter(cfg, h, i, k)
    {
      var j := EntryRemembersLastUse(cfg, h, k);
      assert h[i].now <= h[j].now;
      if j == i { OneKeyPerUse(cfg, h, i, v, k); }
    }
  }

  lemma {:induction false} OneKeyPerUse(cfg: Config, h: seq<Op>, i: nat, k: string, k': string)
    requires UsedAt(cfg, h, i, k) && UsedAt(cfg, h, i, k')
    ensures k == k'
  {
  }

  /** `k` was last used before `other` was. */
  ghost predicate LastUsedBefore(cfg: Config, h: seq<Op>, k: string, other: string) {
    exists i: nat, j: nat :: i < j && LastUseAt(cfg, h, i, k) && LastUseAt(cfg, h, j, other)
  }

  lemma {:induction false} OlderIffUsedBefore(cfg: Config, h: seq<Op>, k: string, other: string)
    requires ClockIncreases(h) && k in Run(cfg, h).entries && other in Run(cfg, h).entries && k != other
    ensures var entries := Run(cfg, h).entries;
            && (entries[k].lastUsed <= entries[other].lastUsed <==> LastUsedBefore(cfg, h, k, other))
            && entries[k].lastUsed != entries[other].lastUsed
  {
    var i := EntryRemembersLastUse(cfg, h, k);
    var j := EntryRemembersLastUse(cfg, h, other);
    if i == j { OneKeyPerUse(cfg, h, i, k, other); }
    hide UsedAt, Run;
  }

  /** Storing a cached query again loses another entry exactly when the cache is at capacity and some
      other entry was used less recently than that query; the cache then shrinks by one. */
  lemma {:induction false} RefreshEvictsIff(cfg: Config, h: seq<Op>, op: Op)
    requires Possible(cfg, h + [op]) && ClockIncreases(h)
    requires op.Put? && cfg.policy.cacheable(op.sql) && op.sql in Run(cfg, h).entries
    ensures var before, after := Run(cfg, h).entries, Run(cfg, h + [op]).entries;
            && ((exists k :: k in before && k !in after) <==>
                |before| >= cfg.maxEntries && exists k :: k in before && k != op.sql && LastUsedBefore(cfg, h, k, op.sql))
            && ((exists k :: k in before && k !in after) ==> |after| == |before| - 1)
  {
    hide Run, Possible, LastUsedBefore, ClockIncreases;
    RunSnoc(cfg, h, op);
    var before, after := Run(cfg, h).entries, Run(cfg, h + [op]).entries;
    assert op.victim.Some? <==> |before| >= cfg.maxEntries;
    if op.victim.Some? {
      var v := op.victim.value;
      assert Oldest(before, v) && after.Keys == before.Keys - {v} + {op.sql};
      hide Step, Enabled;
      if v != op.sql {
        OlderIffUsedBefore(cfg, h, v, op.sql);
        assert v in before && v !in after;
        assert after.Keys == before.Keys - {v};
      } else {
        assert after.Keys == before.Keys;
        forall k | k in before && k != op.sql ensures !LastUsedBefore(cfg, h, k, op.sql) {
          OlderIffUsedBefore(cfg, h, k, op.sql);
        }
      }
    } else {
      assert after.Keys == before.Keys;
    }
  }

  lemma {:induction false} RunSnoc(cfg: Config, h: seq<Op>, op: Op)
    ensures Run(cfg, h + [op]) == Step(cfg, Run(cfg, h), op)
    ensures Possible(cfg, h + [op]) <==> Possible(cfg, h) && Enabled(cfg, Run(cfg, h), op)
  {
    assert (h + [op])[..|h|] == h;
    hide Step, Enabled;
  }

  /** An entry as a put at `now` leaves it. */
  function NewEntry(cfg: Config, sql: string, now: nat): Entry {
    Entry([], cfg.policy.tablesOf(sql), now + cfg.ttl, now)
  }

  lemma {:induction false} TwoStored(cfg: Config)
    requires cfg.policy.cacheable("a") && cfg.policy.cacheable("b") && cfg.maxEntries == 2
    ensures var h := [Put("a", [], 1, None), Put("b", [], 2, None)];
            && Possible(cfg, h)
            && Run(cfg, h) == State(map["a" := NewEntry(cfg, "a", 1), "b" := NewEntry(cfg, "b", 2)], 0, 0)
  {
    hide Run, Possible;
    var a, b := Put("a", [], 1, None), Put("b", [], 2, None);
    RunNothing(cfg);
    RunSnoc(cfg, [], a);
    RunSnoc(cfg, [a], b);
    assert [] + [a] == [a] && [a] + [b] == [a, b];
    assert Run(cfg, [a]) == State(map["a" := NewEntry(cfg, "a", 1)], 0, 0);
  }

  /** Room for two: "a" and "b" are stored, and storing "b" again drops "a". */
  lemma {:induction false} RefreshDropsOther(cfg: Config)
    requires cfg.policy.cacheable("a") && cfg.policy.cacheable("b") && cfg.maxEntries == 2
    ensures var h := [Put("a", [], 1, None), Put("b", [], 2, None)];
            var again := Put("b", [], 3, Some("a"));
            && Possible(cfg, h + [again]) && ClockIncreases(h + [again])
            && Run(cfg, h).entries.Keys == {"a", "b"} && Run(cfg, h + [again]).entries.Keys == {"b"}
  {
    hide Run, Possible;
    var h := [Put("a", [], 1, None), Put("b", [], 2, None)];
    assert "a" != "b" by { assert "a"[0] != "b"[0]; }
    TwoStored(cfg);
    RunSnoc(cfg, h, Put("b", [], 3, Some("a")));
    var entries := Run(cfg, h).entries;
    assert entries.Keys == {"a", "b"};
    assert (entries - {"a"}).Keys == {"b"};
  }

  /** A lookup keeps every other entry as it is; it drops its own when that has expired, and else marks it
      as used just now. */
  lemma {:induction false} LookupLeaves(cfg: Config, h: seq<Op>, sql: string, now: nat, k: string)
    ensures var before, after := Run(cfg, h).entries, Run(cfg, h + [Get(sql, now)]).entries;
            if k != sql || k !in before then k in after <==> k in before
            else k in after <==> now < before[k].expiresAt
    ensures var before, after := Run(cfg, h).entries, Run(cfg, h + [Get(sql, now)]).entries;
            k in after ==> after[k] == if k == sql then before[k].(lastUsed := now) else before[k]
  {
    RunSnoc(cfg, h, Get(sql, now));
    hide Run;
  }

  lemma {:induction false} RunNothing(cfg: Config)
    ensures Run(cfg, []) == EMPTY && Possible(cfg, [])
  {
  }

  // ---------------------------------------------------------------- what may be cached

  function Upper(c: char): char { if 'a' <= c <= 'z' then c - 32 as char else c }

  function UpperCase(s: string): (u: string)
    ensures |u| == |s| && forall i :: 0 <= i < |s| ==> u[i] == Upper(s[i])
  {
    seq(|s|, i requires 0 <= i < |s| => Upper(s[i]))
  }

  predicate IsWhite(c: char) { c == ' ' || 9 <= c as int <= 13 }

  function TrimStart(s: string): string {
    if s != [] && IsWhite(s[0]) then TrimStart(s[1..]) else s
  }

  predicate Contains(s: string, w: string) {
    exists i :: 0 <= i <= |s| - |w| && w <= s[i..]
  }

  const NON_DETERMINISTIC: seq<string> :=
    ["NOW()", "SYSDATE()", "CURRENT_TIMESTAMP", "RAND()", "UUID()", "LAST_INSERT_ID()", "@"]

  predicate IsCacheable(sql: string) {
    var upper := UpperCase(sql);
    && "SELECT" <= TrimStart(upper)
    && !Contains(upper, "FOR UPDATE") && !Contains(upper, "FOR SHARE")
    && forall k :: 0 <= k < |NON_DETERMINISTIC| ==> !Contains(upper, NON_DETERMINISTIC[k])
  }

  /** `is_cacheable`, for ASCII text. */
  method CheckCacheable(sql: string) returns (ok: bool)
    ensures ok == IsCacheable(sql)
  {
    var upper := UpperCase(sql);
    if !("SELECT" <= TrimStart(upper)) { return false; }
    if Contains(upper, "FOR UPDATE") || Contains(upper, "FOR SHARE") { return false; }
    for k := 0 to |NON_DETERMINISTIC|
      invariant forall j :: 0 <= j < k ==> !Contains(upper, NON_DETERMINISTIC[j])
    {
      if Contains(upper, NON_DETERMINISTIC[k]) { return false; }
    }
    return true;
  }

  /** A query that names a non-deterministic function anywhere, in any capitals, is never stored. */
  lemma NonDeterministicIsNeverCached(a: string, w: string, b: string, k: nat)
    requires k < |NON_DETERMINISTIC| && UpperCase(w) == NON_DETERMINISTIC[k]
    ensures !IsCacheable(a + w + b)
  {
    var upper := UpperCase(a + w + b);
    assert upper[|a|..][..|w|] == UpperCase(w);
    assert UpperCase(w) <= upper[|a|..];
    assert Contains(upper, NON_DETERMINISTIC[k]);
  }

  lemma UpperTwice(c: char)
    ensures Upper(Upper(c)) == Upper(c)
  {
  }

  /** Capitals make no difference. */
  lemma CacheableIgnoresCase(sql: string)
    ensures IsCacheable(UpperCase(sql)) == IsCacheable(sql)
  {
    var u := UpperCase(sql);
    forall i | 0 <= i < |u|
      ensures UpperCase(u)[i] == u[i]
    {
      UpperTwice(sql[i]);
    }
    assert UpperCase(u) == u;
  }

  // ---------------------------------------------------------------- cacheability in plain terms

  /** The character, or its small form, is `d`. */
  predicate Writes(c: char, d: char) { c == d || ('A' <= d <= 'Z' && c as int == d as int + 32) }

  /** From position `i` on, the text spells the word, in any capitals. */
  predicate SpellsAt(sql: string, i: int, word: string) {
    0 <= i <= |sql| - |word| && forall j :: 0 <= j < |word| ==> Writes(sql[i + j], word[j])
  }

  ghost predicate Names(sql: string, word: string) { exists i :: SpellsAt(sql, i, word) }

  /** Blanks only: space, or the control characters from tab to carriage return. */
  predicate Blank(s: string) { forall j :: 0 <= j < |s| ==> s[j] == ' ' || 9 <= s[j] as int <= 13 }

  ghost predicate StartsWithSelect(sql: string) {
    exists i :: SpellsAt(sql, i, "SELECT") && Blank(sql[..i])
  }

  ghost predicate Locks(sql: string) { Names(sql, "FOR UPDATE") || Names(sql, "FOR SHARE") }

  ghost predicate NamesListed(sql: string) {
    || Names(sql, "NOW()") || Names(sql, "SYSDATE()") || Names(sql, "CURRENT_TIMESTAMP") || Names(sql, "RAND()")
    || Names(sql, "UUID()") || Names(sql, "LAST_INSERT_ID()") || Names(sql, "@")
  }

  predicate NoSmallLetters(word: string) { forall j :: 0 <= j < |word| ==> !('a' <= word[j] <= 'z') }

  lemma {:induction false} SpellsIff(sql: string, i: int, word: string)
    requires NoSmallLetters(word) && 0 <= i <= |sql| - |word|
    ensures SpellsAt(sql, i, word) <==> word <= UpperCase(sql)[i..]
  {
    var u := UpperCase(sql);
    assert forall j :: 0 <= j < |word| ==> u[i..][j] == u[i + j] == Upper(sql[i + j]);
    if SpellsAt(sql, i, word) {
      assert forall j :: 0 <= j < |word| ==> Writes(sql[i + j], word[j]) && u[i..][j] == word[j];
      assert u[i..][..|word|] == word;
    }
    if word <= u[i..] {
      forall j | 0 <= j < |word| ensures Writes(sql[i + j], word[j]) {
        assert u[i..][j] == word[j];
      }
    }
  }

  lemma {:induction false} ContainsIff(sql: string, word: string)
    requires NoSmallLetters(word)
    ensures Contains(UpperCase(sql), word) <==> Names(sql, word)
  {
    hide SpellsAt, NoSmallLetters, UpperCase;
    forall i | 0 <= i <= |sql| - |word| ensures SpellsAt(sql, i, word) <==> word <= UpperCase(sql)[i..] {
      SpellsIff(sql, i, word);
    }
    if Names(sql, word) {
      var i :| SpellsAt(sql, i, word);
      SpellsInRange(sql, i, word);
    }
  }

  lemma {:induction false} SpellsInRange(sql: string, i: int, word: string)
    requires SpellsAt(sql, i, word)
    ensures 0 <= i <= |sql| - |word|
  {
  }

  /** Trimming cuts off the blanks before the first other character. */
  lemma {:induction false} TrimStartCuts(s: string) returns (n: nat)
    ensures n <= |s| && Blank(s[..n]) && TrimStart(s) == s[n..]
    ensures n < |s| ==> !IsWhite(s[n])
  {
    if s != [] && IsWhite(s[0]) {
      n := TrimStartCuts(s[1..]);
      n := n + 1;
      assert forall j :: 0 < j < n ==> s[..n][j] == s[1..][..n - 1][j - 1];
      assert s[1..][n - 1..] == s[n..];
    } else {
      n := 0;
      assert s[0..] == s;
    }
  }

  lemma {:induction false} BlankCapitals(s: string)
    ensures Blank(UpperCase(s)) <==> Blank(s)
  {
  }

  lemma {:induction false} SelectIff(sql: string)
    ensures "SELECT" <= TrimStart(UpperCase(sql)) <==> StartsWithSelect(sql)
  {
    hide SpellsAt, TrimStart, IsWhite, Blank;
    assert forall i :: SpellsAt(sql, i, "SELECT") ==> 0 <= i <= |sql| by {
      forall i | SpellsAt(sql, i, "SELECT") ensures 0 <= i <= |sql| { SpellsInRange(sql, i, "SELECT"); }
    }
    var u := UpperCase(sql);
    var n := TrimStartCuts(u);
    SelectAt(sql, n);
    if StartsWithSelect(sql) {
      var i := SelectPosition(sql);
      SelectAt(sql, i);
      FirstOther(u, i, n);
    }
  }

  lemma {:induction false} SelectPosition(sql: string) returns (i: nat)
    requires StartsWithSelect(sql)
    ensures i <= |sql| && SpellsAt(sql, i, "SELECT") && Blank(sql[..i])
  {
    i :| SpellsAt(sql, i, "SELECT") && Blank(sql[..i]);
  }

  lemma {:induction false} SelectAt(sql: string, i: nat)
    requires i <= |sql|
    ensures SpellsAt(sql, i, "SELECT") <==> "SELECT" <= UpperCase(sql)[i..]
    ensures SpellsAt(sql, i, "SELECT") ==> i < |sql| && !IsWhite(UpperCase(sql)[i])
    ensures Blank(UpperCase(sql)[..i]) <==> Blank(sql[..i])
  {
    var u := UpperCase(sql);
    assert u[..i] == UpperCase(sql[..i]);
    BlankCapitals(sql[..i]);
    if i + 6 <= |sql| { SpellsIff(sql, i, "SELECT"); }
    hide Blank;
    if SpellsAt(sql, i, "SELECT") {
      assert u[i..][0] == "SELECT"[0];
    }
  }

  /** Only one position ends the leading blanks. */
  lemma {:induction false} FirstOther(s: string, i: nat, n: nat)
    requires i < |s| && n <= |s| && Blank(s[..i]) && Blank(s[..n]) && !IsWhite(s[i]) && (n < |s| ==> !IsWhite(s[n]))
    ensures i == n
  {
    BlankBefore(s, i);
    BlankBefore(s, n);
  }

  lemma {:induction false} BlankBefore(s: string, n: nat)
    requires n <= |s| && Blank(s[..n])
    ensures forall j :: 0 <= j < n ==> IsWhite(s[j])
  {
    assert forall j :: 0 <= j < n ==> s[..n][j] == s[j];
  }

  /** A query is cacheable exactly when it starts with SELECT after blanks and names none of the forbidden
      words anywhere, all in any capitals. */
  lemma {:induction false} CacheableIff(sql: string)
    ensures IsCacheable(sql) <==> StartsWithSelect(sql) && !Locks(sql) && !NamesListed(sql)
  {
    hide Names, StartsWithSelect, TrimStart, UpperCase, Contains, Locks, NamesListed;
    SelectIff(sql);
    LocksIff(sql);
    ListedIff(sql);
  }

  lemma {:induction false} LocksIff(sql: string)
    ensures Locks(sql) <==> Contains(UpperCase(sql), "FOR UPDATE") || Contains(UpperCase(sql), "FOR SHARE")
  {
    hide Names, UpperCase, Contains;
    ContainsIff(sql, "FOR UPDATE");
    ContainsIff(sql, "FOR SHARE");
  }

  lemma {:induction false} ListedIff(sql: string)
    ensures NamesListed(sql) <==>
            exists k :: 0 <= k < |NON_DETERMINISTIC| && Contains(UpperCase(sql), NON_DETERMINISTIC[k])
  {
    hide Names, UpperCase, Contains;
    ContainsIff(sql, "NOW()");
    ContainsIff(sql, "SYSDATE()");
    ContainsIff(sql, "CURRENT_TIMESTAMP");
    ContainsIff(sql, "RAND()");
    ContainsIff(sql, "UUID()");
    ContainsIff(sql, "LAST_INSERT_ID()");
    ContainsIff(sql, "@");
    hide NoSmallLetters;
    var l, u := NON_DETERMINISTIC, UpperCase(sql);
    assert (exists k :: 0 <= k < |l| && Contains(u, l[k])) <==>
      Contains(u, l[0]) || Contains(u, l[1]) || Contains(u, l[2]) || Contains(u, l[3])
      || Contains(u, l[4]) || Contains(u, l[5]) || Contains(u, l[6]);
  }

  /** With this test, whatever the cache answers is the latest response to a plain read: it starts with
      SELECT, takes no locks and names no listed function or variable. */
  lemma {:induction false} HitsArePlainReads(cfg: Config, h: seq<Op>, sql: string, now: nat)
    requires (forall q :: cfg.policy.cacheable(q) == IsCacheable(q)) && Hit(Run(cfg, h), sql, now).Some?
    ensures StartsWithSelect(sql) && !Locks(sql) && !NamesListed(sql)
    ensures exists i: nat :: StandsSince(cfg, h, sql, i)
              && Hit(Run(cfg, h), sql, now) == Some(h[i].bytes) && now < h[i].now + cfg.ttl
  {
    HitsRefineHistory(cfg, h, sql, now);
    CacheableIff(sql);
    hide IsCacheable, Locks, NamesListed, StartsWithSelect, Run, Hit;
    var i: nat :| StandsSince(cfg, h, sql, i);
    assert cfg.policy.cacheable(sql);
  }

  // ---------------------------------------------------------------- counters

  function Lookups(h: seq<Op>): nat {
    if h == [] then 0 else Lookups(h[..|h| - 1]) + if h[|h| - 1].Get? then 1 else 0
  }

  /** Lookups that were answered. */
  function Answered(cfg: Config, h: seq<Op>): nat {
    if h == [] then 0
    else
      var op := h[|h| - 1];
      Answered(cfg, h[..|h| - 1]) + if op.Get? && Hit(Run(cfg, h[..|h| - 1]), op.sql, op.now).Some? then 1 else 0
  }

  /** The counters split the lookups into those answered and the rest. */
  lemma {:induction false} LookupsAreCounted(cfg: Config, h: seq<Op>)
    ensures Run(cfg, h).hits == Answered(cfg, h)
    ensures Run(cfg, h).hits + Run(cfg, h).misses == Lookups(h)
  {
    if h != [] { LookupsAreCounted(cfg, h[..|h| - 1]); }
  }
}
