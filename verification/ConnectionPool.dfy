/** The connection pool of one backend: idle connections in one last-in-first-out bucket per database,
    checkout counters, a connection cap and a wait queue.

    `Pool` is what the pool stores; the methods of `BackendConnections` are its locked sections and the two
    calls made of them.  `World` adds who holds which connection, so that the theorems speak about every
    interleaving of those sections over any number of sessions. */
module ConnectionPool {
  import opened Prelude
  import opened Sums

  /** A backend connection, what it answers to `is_healthy` and `in_transaction` when returned, and the
      database it was opened with. */
  datatype Conn = Conn(id: nat, healthy: bool, inTransaction: bool, database: Option<string>)

  datatype Idle = Idle(conn: Conn, since: nat)

  datatype Config = Config(
    maxSize: nat, maxIdle: Option<nat>, maxConnections: Option<nat>, waitQueue: nat, database: Option<string>)

  datatype Pool = Pool(
    idle: map<string, seq<Idle>>, borrowed: int, created: nat, reused: nat, evicted: nat, permits: nat)

  function Empty(cfg: Config): Pool { Pool(map[], 0, 0, 0, 0, cfg.waitQueue) }

  /** `db_key`: the requested database, else the configured one, else the empty name. */
  function Key(cfg: Config, database: Option<string>): string {
    if database.Some? then database.value else if cfg.database.Some? then cfg.database.value else ""
  }

  /** The database a new connection is opened with: none under the empty key. */
  function ConnectTo(key: string): Option<string> { if key == "" then None else Some(key) }

  // ---------------------------------------------------------------- locked sections on values

  datatype Popped = Popped(rest: seq<Idle>, conn: Option<Conn>, evicted: nat)

  predicate Stale(cfg: Config, entry: Idle, now: nat) {
    cfg.maxIdle.Some? && Monus(now, entry.since) >= cfg.maxIdle.value
  }

  /** Pops from the back until an entry is fresh. */
  function PopFresh(cfg: Config, bucket: seq<Idle>, now: nat): Popped {
    if bucket == [] then Popped([], None, 0)
    else
      var n := |bucket| - 1;
      if Stale(cfg, bucket[n], now) then
        var p := PopFresh(cfg, bucket[..n], now);
        p.(evicted := p.evicted + 1)
      else Popped(bucket[..n], Some(bucket[n].conn), 0)
  }

  function Bucket(p: Pool, key: string): seq<Idle> { if key in p.idle then p.idle[key] else [] }

  /** The first section of a get: the connection to reuse, if any, and the pool without it. */
  function Reuse(cfg: Config, p: Pool, key: string, now: nat): (Pool, Option<Conn>) {
    if key !in p.idle then (p, None)
    else
      var popped := PopFresh(cfg, p.idle[key], now);
      var p' := p.(idle := p.idle[key := popped.rest], evicted := p.evicted + popped.evicted);
      (if popped.conn.Some? then p'.(borrowed := p.borrowed + 1, reused := p.reused + 1) else p', popped.conn)
  }

  predicate UnderCap(cfg: Config, p: Pool) {
    cfg.maxConnections.Some? ==> p.borrowed < cfg.maxConnections.value
  }

  function Opened(p: Pool): Pool { p.(borrowed := p.borrowed + 1, created := p.created + 1) }

  /** The counters at the start of a put. */
  function Released(cfg: Config, p: Pool): Pool {
    p.(borrowed := p.borrowed - 1, permits := if cfg.waitQueue > 0 then p.permits + 1 else p.permits)
  }

  predicate Reusable(conn: Conn) { conn.healthy && !conn.inTransaction }

  /** The locked section of a put: kept unless the bucket is full. */
  function Stored(cfg: Config, p: Pool, key: string, conn: Conn, now: nat): Pool {
    var bucket := Bucket(p, key);
    p.(idle := p.idle[key := if |bucket| < cfg.maxSize then bucket + [Idle(conn, now)] else bucket])
  }

  // ---------------------------------------------------------------- calls run to completion

  /** A get whose connection attempt would give `dialled`; a waiter with no permit to take times out. */
  function Get(cfg: Config, p: Pool, key: string, now: nat, dialled: Option<Conn>): (Pool, Option<Conn>) {
    var (p', reused) := Reuse(cfg, p, key, now);
    if reused.Some? then (p', reused)
    else if !UnderCap(cfg, p') && p'.permits == 0 then (p', None)
    else
      var q := if UnderCap(cfg, p') then p' else p'.(permits := p'.permits - 1);
      if dialled.Some? then (Opened(q), dialled) else (q, None)
  }

  function Put(cfg: Config, p: Pool, key: string, conn: Conn, now: nat): Pool {
    var q := Released(cfg, p);
    if Reusable(conn) then Stored(cfg, q, key, conn, now) else q
  }

  /** A call with the database it asks for, if any. */
  datatype Request =
    | GetFor(database: Option<string>, now: nat, dial: Option<string> -> Option<Conn>)
    | PutFor(database: Option<string>, conn: Conn, now: nat)

  function Answer(cfg: Config, p: Pool, r: Request): (Pool, Option<Conn>) {
    var key := Key(cfg, r.database);
    match r
    case GetFor(_, now, dial) => Get(cfg, p, key, now, dial(ConnectTo(key)))
    case PutFor(_, conn, now) => (Put(cfg, p, key, conn, now), None)
  }

  class BackendConnections {
    var connections: map<string, seq<Idle>>
    var borrowed: int
    var connectionsCreated: nat
    var connectionsReused: nat
    var connectionsEvicted: nat
    var permits: nat
    const cfg: Config

    constructor (cfg: Config)
      ensures Value() == Empty(cfg) && this.cfg == cfg
    {
      connections, borrowed, permits := map[], 0, cfg.waitQueue;
      connectionsCreated, connectionsReused, connectionsEvicted := 0, 0, 0;
      this.cfg := cfg;
    }

    function Value(): Pool
      reads this
    {
      Pool(connections, borrowed, connectionsCreated, connectionsReused, connectionsEvicted, permits)
    }

    method PopIdle(key: string, now: nat) returns (conn: Option<Conn>)
      modifies this
      ensures (Value(), conn) == Reuse(cfg, old(Value()), key, now)
    {
      if key !in connections { return None; }
      var bucket := connections[key];
      ghost var all := PopFresh(cfg, bucket, now);
      ghost var evictedBefore := connectionsEvicted;
      while bucket != []
        invariant connectionsEvicted >= evictedBefore
        invariant var p := PopFresh(cfg, bucket, now);
                  all == p.(evicted := p.evicted + (connectionsEvicted - evictedBefore))
        invariant connections == old(connections) && borrowed == old(borrowed) && permits == old(permits)
        invariant connectionsCreated == old(connectionsCreated) && connectionsReused == old(connectionsReused)
      {
        var entry := bucket[|bucket| - 1];
        bucket := bucket[..|bucket| - 1];
        if Stale(cfg, entry, now) {
          connectionsEvicted := connectionsEvicted + 1;
        } else {
          connections := connections[key := bucket];
          borrowed := borrowed + 1;
          connectionsReused := connectionsReused + 1;
          return Some(entry.conn);
        }
      }
      connections := connections[key := bucket];
      return None;
    }

    /** `get_for_database`, with nothing else going on meanwhile; `dial` says what connecting to a
        database gives. */
    method GetForDatabase(database: Option<string>, now: nat, dial: Option<string> -> Option<Conn>)
      returns (conn: Option<Conn>)
      modifies this
      ensures (Value(), conn) == Answer(cfg, old(Value()), GetFor(database, now, dial))
    {
      var key := Key(cfg, database);
      conn := PopIdle(key, now);
      if conn.Some? { return; }
      if cfg.maxConnections.Some? && borrowed >= cfg.maxConnections.value {
        if permits == 0 { return None; }
        permits := permits - 1;
      }
      conn := dial(if key == "" then None else Some(key));
      if conn.Some? {
        borrowed := borrowed + 1;
        connectionsCreated := connectionsCreated + 1;
      }
    }

    /** `put_for_database` */
    method PutForDatabase(conn: Conn, database: Option<string>, now: nat)
      modifies this
      ensures Value() == Answer(cfg, old(Value()), PutFor(database, conn, now)).0
    {
      borrowed := borrowed - 1;
      if cfg.waitQueue > 0 { permits := permits + 1; }
      if conn.inTransaction || !conn.healthy { return; }
      var key := Key(cfg, database);
      if key !in connections { connections := connections[key := []]; }
      var bucket := connections[key];
      if |bucket| < cfg.maxSize { bucket := bucket + [Idle(conn, now)]; }
      connections := connections[key := bucket];
    }
  }

  // ---------------------------------------------------------------- every interleaving

  /** Where a get stands between its sections. */
  datatype Phase = Missed(key: string) | Waiting(key: string) | Admitted(key: string)

  datatype Return = Return(conn: Conn, key: string)

  /** The pool, the gets under way, the connections held by sessions (as a multiset, so that two
      holders would show), those on their way back, and four counts. */
  datatype World = World(
    pool: Pool, gets: map<nat, Phase>, held: multiset<nat>, returning: map<nat, Return>,
    dropped: nat, admittedOverCap: nat, puts: nat, abandoned: nat)

  function Start(cfg: Config): World { World(Empty(cfg), map[], multiset{}, map[], 0, 0, 0, 0) }

  /** One atomic step of one session, which may also drop its connection without a put.  A new connection gets the next unused number. */
  datatype Event =
    | Pop(get: nat, key: string, now: nat)
    | CheckCap(get: nat)
    | TakePermit(get: nat)
    | TimeOut(get: nat)
    | Connect(get: nat, ok: bool)
    | Release(conn: Conn, key: string)
    | Store(id: nat, now: nat)
    | Abandon(id: nat)

  function PopStep(cfg: Config, w: World, g: nat, key: string, now: nat): World {
    var (p, conn) := Reuse(cfg, w.pool, key, now);
    if conn.Some? then w.(pool := p, held := w.held + multiset{conn.value.id})
    else w.(pool := p, gets := w.gets[g := Missed(key)])
  }

  function CheckStep(cfg: Config, w: World, g: nat): World
    requires g in w.gets
  {
    if UnderCap(cfg, w.pool) then w.(gets := w.gets[g := Admitted(w.gets[g].key)])
    else if cfg.waitQueue > 0 then w.(gets := w.gets[g := Waiting(w.gets[g].key)])
    else w.(gets := w.gets - {g})
  }

  function PermitStep(w: World, g: nat): World
    requires g in w.gets && w.pool.permits > 0
  {
    w.(pool := w.pool.(permits := w.pool.permits - 1),
       gets := w.gets[g := Admitted(w.gets[g].key)], admittedOverCap := w.admittedOverCap + 1)
  }

  function ConnectStep(w: World, g: nat, ok: bool): World {
    if ok then w.(pool := Opened(w.pool), gets := w.gets - {g}, held := w.held + multiset{w.pool.created})
    else w.(gets := w.gets - {g})
  }

  function ReleaseStep(cfg: Config, w: World, conn: Conn, key: string): World {
    var w' := w.(pool := Released(cfg, w.pool), held := w.held - multiset{conn.id}, puts := w.puts + 1);
    if Reusable(conn) then w'.(returning := w.returning[conn.id := Return(conn, key)])
    else w'.(dropped := w.dropped + 1)
  }

  function StoreStep(cfg: Config, w: World, id: nat, now: nat): World
    requires id in w.returning
  {
    var r := w.returning[id];
    var full := |Bucket(w.pool, r.key)| >= cfg.maxSize;
    w.(pool := Stored(cfg, w.pool, r.key, r.conn, now), returning := w.returning - {id},
       dropped := if full then w.dropped + 1 else w.dropped)
  }

  function AbandonStep(w: World, id: nat): World {
    w.(held := w.held - multiset{id}, abandoned := w.abandoned + 1)
  }

  /** An event that its session cannot take at this point changes nothing. */
  function Step(cfg: Config, w: World, e: Event): World {
    match e
    case Pop(g, key, now) => if g !in w.gets then PopStep(cfg, w, g, key, now) else w
    case CheckCap(g) => if g in w.gets && w.gets[g].Missed? then CheckStep(cfg, w, g) else w
    case TakePermit(g) =>
      if g in w.gets && w.gets[g].Waiting? && w.pool.permits > 0 then PermitStep(w, g) else w
    case TimeOut(g) => if g in w.gets && w.gets[g].Waiting? then w.(gets := w.gets - {g}) else w
    case Connect(g, ok) => if g in w.gets && w.gets[g].Admitted? then ConnectStep(w, g, ok) else w
    case Release(conn, key) => if conn.id in w.held then ReleaseStep(cfg, w, conn, key) else w
    case Store(id, now) => if id in w.returning then StoreStep(cfg, w, id, now) else w
    case Abandon(id) => if id in w.held then AbandonStep(w, id) else w
  }

  function Run(cfg: Config, h: seq<Event>): World {
    if h == [] then Start(cfg) else Step(cfg, Run(cfg, h[..|h| - 1]), h[|h| - 1])
  }

  lemma {:induction false} RunPrefix(cfg: Config, h: seq<Event>, k: nat)
    requires k < |h|
    ensures Run(cfg, h[..k + 1]) == Step(cfg, Run(cfg, h[..k]), h[k])
  {
    assert h[..k + 1][..k] == h[..k];
    hide Step;
  }

  lemma {:induction false} RunNothing(cfg: Config, h: seq<Event>)
    ensures Run(cfg, h[..0]) == Start(cfg)
  {
  }

  /** Some run, with any number of sessions in any interleaving, ends here. */
  ghost predicate Reachable(cfg: Config, w: World) { exists h :: Run(cfg, h) == w }

  lemma {:induction false} StartIsReachable(cfg: Config)
    ensures Reachable(cfg, Start(cfg))
  {
    assert Run(cfg, []) == Start(cfg);
  }

  lemma {:induction false} StepIsReachable(cfg: Config, w: World, e: Event)
    requires Reachable(cfg, w)
    ensures Reachable(cfg, Step(cfg, w, e))
  {
    var h :| Run(cfg, h) == w;
    var longer := h + [e];
    RunPrefix(cfg, longer, |h|);
    assert longer[..|h| + 1] == longer && longer[..|h|] == h;
    hide Step, Run;
  }

  /** The steps a get still has to take after its first section; those that do not apply do nothing. */
  function FinishGet(cfg: Config, w: World, g: nat, ok: bool): World {
    Step(cfg, Step(cfg, Step(cfg, Step(cfg, w, CheckCap(g)), TakePermit(g)), TimeOut(g)), Connect(g, ok))
  }

  lemma {:induction false} FinishAdmitted(cfg: Config, w: World, g: nat, ok: bool)
    requires g in w.gets && w.gets[g].Admitted?
    ensures var w' := Step(cfg, Step(cfg, Step(cfg, w, TakePermit(g)), TimeOut(g)), Connect(g, ok));
            w'.pool == (if ok then Opened(w.pool) else w.pool) && w'.gets == w.gets - {g}
  {
  }

  lemma {:induction false} FinishWaiting(cfg: Config, w: World, g: nat, ok: bool)
    requires g in w.gets && w.gets[g].Waiting?
    ensures var w' := Step(cfg, Step(cfg, Step(cfg, w, TakePermit(g)), TimeOut(g)), Connect(g, ok));
            && w'.gets == w.gets - {g}
            && w'.pool == if w.pool.permits == 0 then w.pool
                          else var p := w.pool.(permits := w.pool.permits - 1); if ok then Opened(p) else p
  {
    var w1 := Step(cfg, w, TakePermit(g));
    if w.pool.permits > 0 {
      assert w1.gets == w.gets[g := Admitted(w.gets[g].key)];
      FinishAdmitted(cfg, w1, g, ok);
      assert Step(cfg, w1, TakePermit(g)) == w1;
      assert w1.gets - {g} == w.gets - {g};
    }
  }

  lemma {:induction false} FinishMissed(cfg: Config, w: World, g: nat, ok: bool)
    requires g in w.gets && w.gets[g].Missed? && (cfg.waitQueue == 0 ==> w.pool.permits == 0)
    ensures var w' := FinishGet(cfg, w, g, ok);
            && w'.gets == w.gets - {g}
            && w'.pool == if !UnderCap(cfg, w.pool) && w.pool.permits == 0 then w.pool
                          else
                            var p := if UnderCap(cfg, w.pool) then w.pool
                                     else w.pool.(permits := w.pool.permits - 1);
                            if ok then Opened(p) else p
  {
    var w1 := Step(cfg, w, CheckCap(g));
    assert w1.pool == w.pool;
    if UnderCap(cfg, w.pool) {
      FinishAdmitted(cfg, w1, g, ok);
    } else if cfg.waitQueue > 0 {
      FinishWaiting(cfg, w1, g, ok);
    }
    hide UnderCap, Opened;
    assert w1.gets - {g} == w.gets - {g};
  }

  lemma {:induction false} FinishNothing(cfg: Config, w: World, g: nat, ok: bool)
    requires g !in w.gets
    ensures FinishGet(cfg, w, g, ok) == w
  {
  }

  /** A get run to completion is its sections, one after the other. */
  lemma {:induction false} GetIsItsSections(cfg: Config, w: World, g: nat, key: string, now: nat, dialled: Option<Conn>)
    requires g !in w.gets && (cfg.waitQueue == 0 ==> w.pool.permits == 0)
    ensures var w' := FinishGet(cfg, Step(cfg, w, Pop(g, key, now)), g, dialled.Some?);
            w'.pool == Get(cfg, w.pool, key, now, dialled).0 && w'.gets == w.gets
  {
    var (p, conn) := Reuse(cfg, w.pool, key, now);
    var w1 := Step(cfg, w, Pop(g, key, now));
    assert p.permits == w.pool.permits;
    assert w1.pool == p;
    hide Reuse, FinishGet, Opened, UnderCap;
    if conn.None? {
      FinishMissed(cfg, w1, g, dialled.Some?);
      assert w1.gets - {g} == w.gets;
    } else {
      FinishNothing(cfg, w1, g, dialled.Some?);
    }
    hide Step;
  }

  /** And so is a put. */
  lemma {:induction false} PutIsItsSections(cfg: Config, w: World, conn: Conn, key: string, now: nat)
    requires conn.id in w.held && conn.id !in w.returning
    ensures Step(cfg, Step(cfg, w, Release(conn, key)), Store(conn.id, now)).pool == Put(cfg, w.pool, key, conn, now)
  {
  }

  // ---------------------------------------------------------------- conservation

  ghost function IdleCount(idle: map<string, seq<Idle>>): nat {
    Sum(map k | k in idle :: |idle[k]|)
  }

  lemma {:induction false} IdleCountUpdate(idle: map<string, seq<Idle>>, key: string, bucket: seq<Idle>)
    ensures IdleCount(idle[key := bucket]) + (if key in idle then |idle[key]| else 0) == IdleCount(idle) + |bucket|
  {
    var sizes := map k | k in idle :: |idle[k]|;
    var idle' := idle[key := bucket];
    assert (map k | k in idle' :: |idle'[k]|) == sizes[key := |bucket|];
    SumUpdate(sizes, key, |bucket|);
  }

  lemma {:induction false} IdleCountSplit(idle: map<string, seq<Idle>>, key: string)
    ensures IdleCount(idle) == IdleCount(idle - {key}) + if key in idle then |idle[key]| else 0
  {
    if key in idle {
      IdleCountUpdate(idle - {key}, key, idle[key]);
      assert (idle - {key})[key := idle[key]] == idle;
    } else {
      assert idle - {key} == idle;
    }
  }

  /** Every connection ever created is idle, held, on its way back, evicted, dropped on return or
      abandoned; every checkout, new or reused, is still held, was put back or was abandoned; and the
      checkout counter takes the abandoned connections for held ones. */
  ghost predicate Conserved(w: World) {
    && w.pool.borrowed == |w.held| + w.abandoned
    && w.pool.created + w.pool.reused == |w.held| + w.puts + w.abandoned
    && w.pool.created ==
       IdleCount(w.pool.idle) + |w.held| + |w.returning| + w.pool.evicted + w.dropped + w.abandoned
  }

  lemma {:induction false} PopFreshCounts(cfg: Config, bucket: seq<Idle>, now: nat)
    ensures var p := PopFresh(cfg, bucket, now);
            && |bucket| == |p.rest| + p.evicted + (if p.conn.Some? then 1 else 0)
            && p.rest <= bucket
            && (p.conn.Some? ==> p.conn.value == bucket[|p.rest|].conn)
            && (p.conn.None? ==> p.rest == [])
  {
    if bucket != [] { PopFreshCounts(cfg, bucket[..|bucket| - 1], now); }
  }

  lemma {:induction false} ReuseCounts(cfg: Config, p: Pool, key: string, now: nat)
    ensures var (p', conn) := Reuse(cfg, p, key, now);
            && IdleCount(p.idle) + p.evicted
               == IdleCount(p'.idle) + p'.evicted + (if conn.Some? then 1 else 0)
            && p'.borrowed == p.borrowed + (if conn.Some? then 1 else 0)
            && p'.reused == p.reused + (if conn.Some? then 1 else 0)
            && p'.created == p.created && p'.permits == p.permits
  {
    if key in p.idle {
      PopFreshCounts(cfg, p.idle[key], now);
      IdleCountUpdate(p.idle, key, PopFresh(cfg, p.idle[key], now).rest);
    }
  }

  lemma {:induction false} PopConserves(cfg: Config, w: World, g: nat, key: string, now: nat)
    requires Conserved(w)
    ensures Conserved(PopStep(cfg, w, g, key, now))
  {
    ReuseCounts(cfg, w.pool, key, now);
    hide IdleCount, Reuse;
  }

  lemma {:induction false} ReleaseConserves(cfg: Config, w: World, conn: Conn, key: string)
    requires Conserved(w) && conn.id in w.held && conn.id !in w.returning
    ensures Conserved(ReleaseStep(cfg, w, conn, key))
  {
    hide IdleCount;
    assert |w.held - multiset{conn.id}| == |w.held| - 1;
    assert |w.returning[conn.id := Return(conn, key)]| == |w.returning| + 1;
  }

  lemma {:induction false} AbandonConserves(w: World, id: nat)
    requires Conserved(w) && id in w.held
    ensures Conserved(AbandonStep(w, id))
  {
    hide IdleCount;
    assert |w.held - multiset{id}| == |w.held| - 1;
  }

  lemma {:induction false} StoreConserves(cfg: Config, w: World, id: nat, now: nat)
    requires Conserved(w) && id in w.returning
    ensures Conserved(StoreStep(cfg, w, id, now))
  {
    StoreCounts(cfg, w.pool, w.returning[id], now);
    RemoveShrinks(w.returning, id);
    hide IdleCount, Stored;
  }

  lemma {:induction false} ConnectConserves(w: World, g: nat, ok: bool)
    requires Conserved(w)
    ensures Conserved(ConnectStep(w, g, ok))
  {
    hide IdleCount;
  }

  /** Steps that only move a get along leave the connections alone. */
  lemma {:induction false} ConservedWithoutGets(w: World, w': World)
    requires Conserved(w) && w'.held == w.held && w'.returning == w.returning && w'.dropped == w.dropped
    requires w'.puts == w.puts && w'.abandoned == w.abandoned
    requires w'.pool == w.pool.(permits := w'.pool.permits)
    ensures Conserved(w')
  {
    hide IdleCount;
  }

  lemma {:induction false} StepConserves(cfg: Config, w: World, e: Event)
    requires Conserved(w) && Exclusive(w)
    ensures Conserved(Step(cfg, w, e))
  {
    if e.Release? && e.conn.id in w.held { assert e.conn.id !in w.returning; }
    hide Conserved, PopStep, ReleaseStep, StoreStep, ConnectStep, AbandonStep, Exclusive;
    match e
    case Pop(g, key, now) => PopConserves(cfg, w, g, key, now);
    case Release(conn, key) => if conn.id in w.held { ReleaseConserves(cfg, w, conn, key); }
    case Store(id, now) => if id in w.returning { StoreConserves(cfg, w, id, now); }
    case Abandon(id) => if id in w.held { AbandonConserves(w, id); }
    case Connect(g, ok) => if g in w.gets && w.gets[g].Admitted? { ConnectConserves(w, g, ok); }
    case CheckCap(_) => ConservedWithoutGets(w, Step(cfg, w, e));
    case TakePermit(_) => ConservedWithoutGets(w, Step(cfg, w, e));
    case TimeOut(_) => ConservedWithoutGets(w, Step(cfg, w, e));
  }

  lemma {:induction false} StoreCounts(cfg: Config, p: Pool, r: Return, now: nat)
    ensures var p' := Stored(cfg, p, r.key, r.conn, now);
            && IdleCount(p'.idle) == IdleCount(p.idle) + (if |Bucket(p, r.key)| < cfg.maxSize then 1 else 0)
            && p' == p.(idle := p'.idle)
  {
    IdleCountUpdate(p.idle, r.key, Stored(cfg, p, r.key, r.conn, now).idle[r.key]);
  }

  lemma {:induction false} RemoveShrinks<V>(m: map<nat, V>, k: nat)
    requires k in m
    ensures |m - {k}| == |m| - 1
  {
    assert (m - {k}).Keys == m.Keys - {k};
  }

  // ---------------------------------------------------------------- ownership

  /** No connection number stands in two places of the idle buckets. */
  ghost predicate IdleOnce(idle: map<string, seq<Idle>>) {
    forall k, i, k', i' :: k in idle && k' in idle && 0 <= i < |idle[k]| && 0 <= i' < |idle[k']| ==>
      (idle[k][i].conn.id == idle[k'][i'].conn.id ==> k == k' && i == i')
  }

  /** A connection has at most one holder, and is idle, held or on its way back, never two of these. */
  ghost predicate Exclusive(w: World) {
    && IdleOnce(w.pool.idle)
    && (forall id :: w.held[id] <= 1)
    && (forall id :: id in w.held ==> id < w.pool.created && id !in w.returning)
    && (forall id :: id in w.returning ==> id < w.pool.created && w.returning[id].conn.id == id)
    && (forall k, i :: k in w.pool.idle && 0 <= i < |w.pool.idle[k]| ==>
          var id := w.pool.idle[k][i].conn.id;
          id < w.pool.created && id !in w.held && id !in w.returning)
  }

  /** Taking entries off the back of a bucket. */
  lemma {:induction false} ShrinkKeepsIdleOnce(idle: map<string, seq<Idle>>, key: string, rest: seq<Idle>)
    requires IdleOnce(idle) && key in idle && rest <= idle[key]
    ensures IdleOnce(idle[key := rest])
  {
  }

  lemma {:induction false} ShrinkKeepsExclusive(w: World, key: string, rest: seq<Idle>)
    requires Exclusive(w) && key in w.pool.idle && rest <= w.pool.idle[key]
    ensures Exclusive(w.(pool := w.pool.(idle := w.pool.idle[key := rest])))
  {
    ShrinkKeepsIdleOnce(w.pool.idle, key, rest);
    hide IdleOnce;
  }

  /** A connection that just left its bucket stands nowhere else, so a session can hold it. */
  lemma {:induction false} LeavesIdle(w: World, key: string, n: nat)
    requires Exclusive(w) && key in w.pool.idle && n < |w.pool.idle[key]|
    ensures var id := w.pool.idle[key][n].conn.id;
            Exclusive(w.(pool := w.pool.(idle := w.pool.idle[key := w.pool.idle[key][..n]]),
                         held := w.held + multiset{id}))
  {
    var bucket := w.pool.idle[key];
    var id := bucket[n].conn.id;
    var idle': map<string, seq<Idle>> := w.pool.idle[key := bucket[..n]];
    ShrinkKeepsExclusive(w, key, bucket[..n]);
    forall k: string, i | k in idle' && 0 <= i < |idle'[k]| ensures idle'[k][i].conn.id != id {
      assert idle'[k][i] == w.pool.idle[k][i];
    }
    hide IdleOnce;
  }

  /** Only the idle buckets, the holders and the numbers given out matter. */
  lemma {:induction false} SameHolders(w: World, w': World)
    requires Exclusive(w) && w'.pool.idle == w.pool.idle && w'.pool.created == w.pool.created
    requires w'.held == w.held && w'.returning == w.returning
    ensures Exclusive(w')
  {
    hide IdleOnce;
  }

  lemma {:induction false} PopKeepsExclusive(cfg: Config, w: World, g: nat, key: string, now: nat)
    requires Exclusive(w)
    ensures Exclusive(PopStep(cfg, w, g, key, now))
  {
    hide Exclusive, PopFresh;
    var w' := PopStep(cfg, w, g, key, now);
    if key !in w.pool.idle {
      SameHolders(w, w');
    } else {
      var bucket, popped := w.pool.idle[key], PopFresh(cfg, w.pool.idle[key], now);
      PopFreshCounts(cfg, bucket, now);
      assert popped.rest == bucket[..|popped.rest|];
      if popped.conn.Some? {
        LeavesIdle(w, key, |popped.rest|);
        SameHolders(w.(pool := w.pool.(idle := w.pool.idle[key := popped.rest]),
                       held := w.held + multiset{popped.conn.value.id}), w');
      } else {
        ShrinkKeepsExclusive(w, key, popped.rest);
        SameHolders(w.(pool := w.pool.(idle := w.pool.idle[key := popped.rest])), w');
      }
    }
  }

  lemma {:induction false} ConnectKeepsExclusive(w: World, g: nat, ok: bool)
    requires Exclusive(w)
    ensures Exclusive(ConnectStep(w, g, ok))
  {
    hide IdleOnce;
  }

  lemma {:induction false} ReleaseKeepsExclusive(cfg: Config, w: World, conn: Conn, key: string)
    requires Exclusive(w) && conn.id in w.held
    ensures Exclusive(ReleaseStep(cfg, w, conn, key))
  {
    hide IdleOnce;
    assert w.held[conn.id] == 1;
  }

  lemma {:induction false} AbandonKeepsExclusive(w: World, id: nat)
    requires Exclusive(w)
    ensures Exclusive(AbandonStep(w, id))
  {
    hide IdleOnce;
  }

  lemma {:induction false} StoreKeepsExclusive(cfg: Config, w: World, e: Event)
    requires e.Store? && e.id in w.returning && Exclusive(w)
    ensures Exclusive(StoreStep(cfg, w, e.id, e.now))
  {
    var r := w.returning[e.id];
    var bucket := Bucket(w.pool, r.key);
    var w' := StoreStep(cfg, w, e.id, e.now);
    var idle: map<string, seq<Idle>>, idle': map<string, seq<Idle>> := w.pool.idle, w'.pool.idle;
    forall k: string, i | k in idle' && 0 <= i < |idle'[k]|
      ensures (k in idle && i < |idle[k]| && idle'[k][i] == idle[k][i])
              || (k == r.key && i == |bucket| && idle'[k][i].conn.id == e.id)
    {
    }
  }

  lemma {:induction false} StepKeepsExclusive(cfg: Config, w: World, e: Event)
    requires Exclusive(w)
    ensures Exclusive(Step(cfg, w, e))
  {
    hide Exclusive, PopStep, StoreStep, ReleaseStep, ConnectStep, AbandonStep;
    match e
    case Pop(g, key, now) => PopKeepsExclusive(cfg, w, g, key, now);
    case Connect(g, ok) => ConnectKeepsExclusive(w, g, ok);
    case Release(conn, key) => if conn.id in w.held { ReleaseKeepsExclusive(cfg, w, conn, key); }
    case Store(id, _) => if id in w.returning { StoreKeepsExclusive(cfg, w, e); }
    case Abandon(id) => AbandonKeepsExclusive(w, id);
    case CheckCap(_) => SameHolders(w, Step(cfg, w, e));
    case TakePermit(_) => SameHolders(w, Step(cfg, w, e));
    case TimeOut(_) => SameHolders(w, Step(cfg, w, e));
  }

  /** In every run no connection has two holders, and the number created is the number idle, held, on
      their way back, evicted, dropped and abandoned; the checkout counter is the number held and
      abandoned, and the connections created and reused are those held, put back and abandoned. */
  lemma {:induction false} OwnedAndConserved(cfg: Config, h: seq<Event>)
    ensures Exclusive(Run(cfg, h)) && Conserved(Run(cfg, h))
  {
    if h == [] {
      EmptyCount();
    } else {
      var before := Run(cfg, h[..|h| - 1]);
      OwnedAndConserved(cfg, h[..|h| - 1]);
      hide Exclusive, Conserved, Step;
      StepKeepsExclusive(cfg, before, h[|h| - 1]);
      StepConserves(cfg, before, h[|h| - 1]);
    }
  }

  // ---------------------------------------------------------------- what the idle buckets hold

  /** Idle connections were healthy and outside a transaction when stored, and a bucket never outgrows
      its size. */
  ghost predicate IdleIsReusable(cfg: Config, w: World) {
    && (forall k, i :: k in w.pool.idle && 0 <= i < |w.pool.idle[k]| ==>
          w.pool.idle[k][i].conn.healthy && !w.pool.idle[k][i].conn.inTransaction)
    && (forall k :: k in w.pool.idle ==> |w.pool.idle[k]| <= cfg.maxSize)
    && (forall id :: id in w.returning ==> w.returning[id].conn.healthy && !w.returning[id].conn.inTransaction)
  }

  lemma {:induction false} PopKeepsReusable(cfg: Config, w: World, g: nat, key: string, now: nat)
    requires IdleIsReusable(cfg, w)
    ensures IdleIsReusable(cfg, PopStep(cfg, w, g, key, now))
  {
    hide PopFresh;
    if key in w.pool.idle { PopFreshCounts(cfg, w.pool.idle[key], now); }
  }

  lemma {:induction false} StoreKeepsReusable(cfg: Config, w: World, id: nat, now: nat)
    requires IdleIsReusable(cfg, w) && id in w.returning
    ensures IdleIsReusable(cfg, StoreStep(cfg, w, id, now))
  {
  }

  lemma {:induction false} StepKeepsReusable(cfg: Config, w: World, e: Event)
    requires IdleIsReusable(cfg, w)
    ensures IdleIsReusable(cfg, Step(cfg, w, e))
  {
    hide PopStep, StoreStep;
    if e.Pop? {
      PopKeepsReusable(cfg, w, e.get, e.key, e.now);
    } else if e.Store? && e.id in w.returning {
      StoreKeepsReusable(cfg, w, e.id, e.now);
    }
  }

  lemma {:induction false} IdleStaysReusable(cfg: Config, h: seq<Event>)
    ensures IdleIsReusable(cfg, Run(cfg, h))
  {
    if h != [] {
      IdleStaysReusable(cfg, h[..|h| - 1]);
      hide IdleIsReusable, Step;
      StepKeepsReusable(cfg, Run(cfg, h[..|h| - 1]), h[|h| - 1]);
    }
  }

  // ---------------------------------------------------------------- the wait queue

  predicate PermitsAddUp(cfg: Config, w: World) {
    && w.admittedOverCap + w.pool.permits == (if cfg.waitQueue > 0 then cfg.waitQueue + w.puts else 0)
    && (cfg.waitQueue == 0 ==> forall g :: g in w.gets ==> !w.gets[g].Waiting?)
  }

  lemma {:induction false} StepKeepsPermits(cfg: Config, w: World, e: Event)
    requires PermitsAddUp(cfg, w)
    ensures PermitsAddUp(cfg, Step(cfg, w, e))
  {
    if e.Pop? { assert Reuse(cfg, w.pool, e.key, e.now).0.permits == w.pool.permits; }
    hide Reuse, Stored, Bucket;
    match e
    case Pop(g, _, _) =>
    case CheckCap(_) =>
    case TakePermit(_) =>
    case TimeOut(_) =>
    case Connect(_, _) =>
    case Release(_, _) =>
    case Abandon(_) =>
    case Store(id, now) =>
      if id in w.returning {
        assert Stored(cfg, w.pool, w.returning[id].key, w.returning[id].conn, now).permits == w.pool.permits by {
          StoreCounts(cfg, w.pool, w.returning[id], now);
        }
      }
  }

  /** Gets admitted over the cap never outnumber the queue size plus the puts so far: the permits left
      are exactly the difference, and without a queue no get is admitted over the cap. */
  lemma {:induction false} OverCapIsPaidFor(cfg: Config, h: seq<Event>)
    ensures PermitsAddUp(cfg, Run(cfg, h))
  {
    if h != [] {
      OverCapIsPaidFor(cfg, h[..|h| - 1]);
      hide PermitsAddUp, Step;
      StepKeepsPermits(cfg, Run(cfg, h[..|h| - 1]), h[|h| - 1]);
    }
  }

  ghost function Waiters(w: World): set<nat> { set g | g in w.gets && w.gets[g].Waiting? }

  /** Some run has `n` gets waiting at once, with no permit left for any of them. */
  ghost predicate CanWait(cfg: Config, n: nat) {
    exists w :: Reachable(cfg, w) && w.pool.permits == 0 && |Waiters(w)| == n
  }

  /** Some run admits `n` gets over the cap. */
  ghost predicate CanPassCap(cfg: Config, n: nat) { exists w :: Reachable(cfg, w) && w.admittedOverCap == n }

  predicate Queueing(cfg: Config) { cfg.waitQueue > 0 && cfg.maxConnections.Some? }

  lemma {:induction false} Misses(cfg: Config, w: World, g: nat, key: string, now: nat)
    requires g !in w.gets && Bucket(w.pool, key) == []
    ensures Step(cfg, w, Pop(g, key, now)) == w.(gets := w.gets[g := Missed(key)])
  {
    assert key in w.pool.idle ==> w.pool.idle[key] == [] && w.pool.idle[key := []] == w.pool.idle;
  }

  /** A get with nothing to reuse reaches the cap check, which lets it through or makes it wait. */
  lemma {:induction false} MissedGet(cfg: Config, w: World, g: nat, key: string, now: nat)
    requires g !in w.gets && Bucket(w.pool, key) == [] && (UnderCap(cfg, w.pool) || cfg.waitQueue > 0)
    ensures Step(cfg, Step(cfg, w, Pop(g, key, now)), CheckCap(g)) ==
            w.(gets := w.gets[g := if UnderCap(cfg, w.pool) then Admitted(key) else Waiting(key)])
  {
    Misses(cfg, w, g, key, now);
    hide Bucket, UnderCap, Reuse, PopStep;
    var w1 := w.(gets := w.gets[g := Missed(key)]);
    assert w1.gets[g := Admitted(key)] == w.gets[g := Admitted(key)];
    assert w1.gets[g := Waiting(key)] == w.gets[g := Waiting(key)];
  }

  lemma {:induction false} Connects(cfg: Config, w: World, g: nat, key: string)
    requires g !in w.gets
    ensures Step(cfg, w.(gets := w.gets[g := Admitted(key)]), Connect(g, true)) ==
            w.(pool := Opened(w.pool), held := w.held + multiset{w.pool.created})
  {
    assert w.gets[g := Admitted(key)] - {g} == w.gets;
  }

  lemma {:induction false} TakesPermit(cfg: Config, w: World, g: nat, key: string)
    requires w.pool.permits > 0
    ensures Step(cfg, w.(gets := w.gets[g := Waiting(key)]), TakePermit(g)) ==
            w.(gets := w.gets[g := Admitted(key)], pool := w.pool.(permits := w.pool.permits - 1),
               admittedOverCap := w.admittedOverCap + 1)
  {
    assert w.gets[g := Waiting(key)][g := Admitted(key)] == w.gets[g := Admitted(key)];
  }

  /** The get at position `k` of the run finds nothing to reuse, passes the cap check and connects. */
  lemma {:induction false} RunOpens(cfg: Config, h: seq<Event>, k: nat, g: nat, key: string)
    requires k + 3 <= |h| && h[k] == Pop(g, key, 0) && h[k + 1] == CheckCap(g) && h[k + 2] == Connect(g, true)
    requires var w := Run(cfg, h[..k]); g !in w.gets && Bucket(w.pool, key) == [] && UnderCap(cfg, w.pool)
    ensures var w := Run(cfg, h[..k]);
            Run(cfg, h[..k + 3]) == w.(pool := Opened(w.pool), held := w.held + multiset{w.pool.created})
  {
    var w := Run(cfg, h[..k]);
    RunPrefix(cfg, h, k);
    RunPrefix(cfg, h, k + 1);
    RunPrefix(cfg, h, k + 2);
    MissedGet(cfg, w, g, key, 0);
    Connects(cfg, w, g, key);
    hide Run, Step, Bucket, UnderCap;
  }

  /** As many connections checked out as the cap allows, none idle, and a permit to take. */
  predicate AtCap(cfg: Config, w: World)
    requires cfg.maxConnections.Some?
  {
    w.pool.idle == map[] && w.pool.borrowed == cfg.maxConnections.value && w.pool.permits > 0
  }

  /** A session of its own checks out one connection after another up to the cap. */
  lemma {:induction false} FillsUp(cfg: Config, m: nat) returns (w: World)
    requires Queueing(cfg) && m <= cfg.maxConnections.value
    ensures Reachable(cfg, w) && w.pool.idle == map[] && w.pool.borrowed == m && w.pool.permits == cfg.waitQueue
    ensures w.gets == map[] && w.admittedOverCap == 0
  {
    if m == 0 {
      StartIsReachable(cfg);
      w := Start(cfg);
    } else {
      var w0 := FillsUp(cfg, m - 1);
      hide Reachable, Step;
      var w1 := Step(cfg, w0, Pop(0, "", 0));
      var w2 := Step(cfg, w1, CheckCap(0));
      w := Step(cfg, w2, Connect(0, true));
      StepIsReachable(cfg, w0, Pop(0, "", 0));
      StepIsReachable(cfg, w1, CheckCap(0));
      StepIsReachable(cfg, w2, Connect(0, true));
      MissedGet(cfg, w0, 0, "", 0);
      Connects(cfg, w0, 0, "");
    }
  }

  lemma {:induction false} OneMoreWaits(w: World, g: nat, key: string)
    requires g !in w.gets
    ensures |Waiters(w.(gets := w.gets[g := Waiting(key)]))| == |Waiters(w)| + 1
  {
    assert Waiters(w.(gets := w.gets[g := Waiting(key)])) == Waiters(w) + {g};
  }

  /** A get that finds nothing idle and the cap reached waits, takes a permit and connects. */
  lemma {:induction false} GetOverCap(cfg: Config, w: World) returns (w': World)
    requires Reachable(cfg, w) && w.gets == map[] && Bucket(w.pool, "") == []
    requires Queueing(cfg) && !UnderCap(cfg, w.pool) && w.pool.permits > 0
    ensures Reachable(cfg, w')
    ensures w' == w.(pool := Opened(w.pool.(permits := w.pool.permits - 1)), held := w.held + multiset{w.pool.created},
                     admittedOverCap := w.admittedOverCap + 1)
  {
    var w1 := Step(cfg, w, Pop(0, "", 0));
    var w2 := Step(cfg, w1, CheckCap(0));
    var w3 := Step(cfg, w2, TakePermit(0));
    w' := Step(cfg, w3, Connect(0, true));
    StepIsReachable(cfg, w, Pop(0, "", 0));
    StepIsReachable(cfg, w1, CheckCap(0));
    StepIsReachable(cfg, w2, TakePermit(0));
    StepIsReachable(cfg, w3, Connect(0, true));
    MissedGet(cfg, w, 0, "", 0);
    TakesPermit(cfg, w, 0, "");
    Connects(cfg, w.(pool := w.pool.(permits := w.pool.permits - 1), admittedOverCap := w.admittedOverCap + 1), 0, "");
    hide Reachable, Bucket, UnderCap, Step;
  }

  /** One get after another takes a permit, until `k` are gone. */
  lemma {:induction false} UsesUp(cfg: Config, k: nat) returns (w: World)
    requires Queueing(cfg) && k <= cfg.waitQueue
    ensures Reachable(cfg, w) && w.gets == map[] && w.pool.idle == map[]
    ensures !UnderCap(cfg, w.pool) && w.pool.permits == cfg.waitQueue - k
  {
    if k == 0 {
      w := FillsUp(cfg, cfg.maxConnections.value);
    } else {
      var w0 := UsesUp(cfg, k - 1);
      hide Reachable;
      w := GetOverCap(cfg, w0);
    }
  }

  /** With the cap reached and no permit left, one get after another joins the queue, however long it is. */
  lemma {:induction false} QueuesUp(cfg: Config, n: nat) returns (w: World)
    requires Queueing(cfg)
    ensures Reachable(cfg, w) && !UnderCap(cfg, w.pool) && w.pool.idle == map[] && w.pool.permits == 0
    ensures |Waiters(w)| == n && forall g :: g in w.gets ==> g < n
  {
    if n == 0 {
      w := UsesUp(cfg, cfg.waitQueue);
    } else {
      var w0 := QueuesUp(cfg, n - 1);
      hide Reachable, Step, Waiters, UnderCap;
      var w1 := Step(cfg, w0, Pop(n - 1, "", 0));
      w := Step(cfg, w1, CheckCap(n - 1));
      StepIsReachable(cfg, w0, Pop(n - 1, "", 0));
      StepIsReachable(cfg, w1, CheckCap(n - 1));
      MissedGet(cfg, w0, n - 1, "", 0);
      OneMoreWaits(w0, n - 1, "");
    }
  }

  /** At the cap a get passes it and hands the permit back with the connection. */
  lemma {:induction false} PassesCap(cfg: Config, n: nat) returns (w: World)
    requires Queueing(cfg)
    ensures Reachable(cfg, w) && AtCap(cfg, w) && w.gets == map[] && w.admittedOverCap == n
  {
    if n == 0 {
      w := FillsUp(cfg, cfg.maxConnections.value);
    } else {
      var w0 := PassesCap(cfg, n - 1);
      var w1 := GetOverCap(cfg, w0);
      var conn := Conn(w0.pool.created, false, false, None);
      w := Step(cfg, w1, Release(conn, ""));
      StepIsReachable(cfg, w1, Release(conn, ""));
      hide Reachable;
    }
  }

  predicate NobodyWaits(w: World) { w.admittedOverCap == 0 && forall g :: g in w.gets ==> !w.gets[g].Waiting? }

  lemma {:induction false} StepKeepsNobodyWaiting(cfg: Config, w: World, e: Event)
    requires !Queueing(cfg) && NobodyWaits(w)
    ensures NobodyWaits(Step(cfg, w, e))
  {
    hide Reuse, Stored, Bucket;
  }

  lemma {:induction false} NobodyEverWaits(cfg: Config, h: seq<Event>)
    requires !Queueing(cfg)
    ensures NobodyWaits(Run(cfg, h))
  {
    if h != [] {
      NobodyEverWaits(cfg, h[..|h| - 1]);
      hide NobodyWaits, Step;
      StepKeepsNobodyWaiting(cfg, Run(cfg, h[..|h| - 1]), h[|h| - 1]);
    }
  }

  /** The queue size bounds neither the gets blocked at once nor those admitted over the cap: with a
      queue and a cap every number of either is reached, and otherwise no get ever waits. */
  lemma {:induction false} QueueBoundsNothingIff(cfg: Config)
    ensures (forall n: nat :: CanWait(cfg, n)) <==> cfg.waitQueue > 0 && cfg.maxConnections.Some?
    ensures (forall n: nat :: CanPassCap(cfg, n)) <==> cfg.waitQueue > 0 && cfg.maxConnections.Some?
  {
    if Queueing(cfg) {
      forall n: nat ensures CanWait(cfg, n) && CanPassCap(cfg, n) {
        var w := QueuesUp(cfg, n);
        var w' := PassesCap(cfg, n);
      }
    } else {
      forall w | Reachable(cfg, w) ensures w.admittedOverCap == 0 && Waiters(w) == {} {
        var h :| Run(cfg, h) == w;
        NobodyEverWaits(cfg, h);
      }
      assert !CanWait(cfg, 1) && !CanPassCap(cfg, 1);
    }
  }

  // ---------------------------------------------------------------- abandoned connections

  /** What more events lead to. */
  function RunFrom(cfg: Config, w: World, h: seq<Event>): World {
    if h == [] then w else Step(cfg, RunFrom(cfg, w, h[..|h| - 1]), h[|h| - 1])
  }

  lemma {:induction false} RunFromIsRun(cfg: Config, h: seq<Event>, more: seq<Event>)
    ensures RunFrom(cfg, Run(cfg, h), more) == Run(cfg, h + more)
  {
    hide Step;
    if more == [] {
      assert h + more == h;
    } else {
      var n := |more| - 1;
      RunFromIsRun(cfg, h, more[..n]);
      assert (h + more)[..|h + more| - 1] == h + more[..n];
    }
  }

  /** Whatever happens from here on, the cap stays reached. */
  ghost predicate Starved(cfg: Config, w: World) { forall more :: !UnderCap(cfg, RunFrom(cfg, w, more).pool) }

  lemma {:induction false} AbandonedGrows(cfg: Config, w: World, more: seq<Event>)
    ensures w.abandoned <= RunFrom(cfg, w, more).abandoned
  {
    if more != [] {
      AbandonedGrows(cfg, w, more[..|more| - 1]);
      AbandonedStep(cfg, RunFrom(cfg, w, more[..|more| - 1]), more[|more| - 1]);
      hide Step;
    }
  }

  lemma {:induction false} AbandonedStep(cfg: Config, w: World, e: Event)
    ensures w.abandoned <= Step(cfg, w, e).abandoned
  {
    hide Reuse, Stored;
  }

  /** Every session can still put its connection back. */
  lemma {:induction false} PutAllBack(cfg: Config, w: World) returns (more: seq<Event>)
    ensures RunFrom(cfg, w, more).held == multiset{} && RunFrom(cfg, w, more).abandoned == w.abandoned
    decreases |w.held|
  {
    if w.held == multiset{} {
      more := [];
    } else {
      var id := MemberOf(w.held);
      var e := Release(Conn(id, false, false, None), "");
      var w' := Step(cfg, w, e);
      assert w'.held == w.held - multiset{id} && |w'.held| == |w.held| - 1;
      var rest := PutAllBack(cfg, w');
      more := [e] + rest;
      RunFromFirst(cfg, w, e, rest);
    }
  }

  lemma {:induction false} MemberOf(m: multiset<nat>) returns (id: nat)
    requires m != multiset{}
    ensures id in m
  {
    id :| id in m;
  }

  lemma {:induction false} RunFromFirst(cfg: Config, w: World, e: Event, more: seq<Event>)
    ensures RunFrom(cfg, w, [e] + more) == RunFrom(cfg, Step(cfg, w, e), more)
  {
    hide Step;
    var h := [e] + more;
    if more == [] {
      assert h[..0] == [] && h == [e];
      assert RunFrom(cfg, w, h[..|h| - 1]) == w;
    } else {
      RunFromFirst(cfg, w, e, more[..|more| - 1]);
      assert h[..|h| - 1] == [e] + more[..|more| - 1];
    }
  }

  /** The cap stays reached for good exactly when as many connections were dropped without a put as it
      allows: the counter never takes those back. */
  lemma {:induction false} StarvedIff(cfg: Config, h: seq<Event>)
    requires cfg.maxConnections.Some?
    ensures Starved(cfg, Run(cfg, h)) <==> Run(cfg, h).abandoned >= cfg.maxConnections.value
  {
    hide Run, RunFrom, IdleCount, Exclusive;
    var w := Run(cfg, h);
    if w.abandoned >= cfg.maxConnections.value {
      forall more ensures !UnderCap(cfg, RunFrom(cfg, w, more).pool) {
        RunFromIsRun(cfg, h, more);
        OwnedAndConserved(cfg, h + more);
        AbandonedGrows(cfg, w, more);
      }
    } else {
      var more := PutAllBack(cfg, w);
      RunFromIsRun(cfg, h, more);
      OwnedAndConserved(cfg, h + more);
      assert UnderCap(cfg, RunFrom(cfg, w, more).pool);
    }
  }

  /** With no queue, from then on every get that finds nothing to reuse is refused. */
  lemma {:induction false} StarvedGetsAreRefused(
      cfg: Config, h: seq<Event>, more: seq<Event>, key: string, now: nat, dialled: Option<Conn>)
    requires cfg.waitQueue == 0 && cfg.maxConnections.Some? && Run(cfg, h).abandoned >= cfg.maxConnections.value
    requires Reuse(cfg, Run(cfg, h + more).pool, key, now).1.None?
    ensures Get(cfg, Run(cfg, h + more).pool, key, now, dialled).1 == None
  {
    hide Run, RunFrom, Starved;
    var p := Run(cfg, h + more).pool;
    StarvedIff(cfg, h);
    RunFromIsRun(cfg, h, more);
    assert !UnderCap(cfg, p) by { assert Starved(cfg, Run(cfg, h)); StarvedStays(cfg, Run(cfg, h), more); }
    OverCapIsPaidFor(cfg, h + more);
    ReuseCounts(cfg, p, key, now);
    assert Reuse(cfg, p, key, now).0.borrowed == p.borrowed;
  }

  lemma {:induction false} StarvedStays(cfg: Config, w: World, more: seq<Event>)
    requires Starved(cfg, w)
    ensures !UnderCap(cfg, RunFrom(cfg, w, more).pool)
  {
  }

  /** Sessions that connect and then drop their connection bring any number about, up to the cap. */
  lemma {:induction false} CanAbandon(cfg: Config, m: nat) returns (w: World)
    requires cfg.maxConnections.Some? && m <= cfg.maxConnections.value
    ensures Reachable(cfg, w) && w.abandoned == m
    ensures w.gets == map[] && w.pool.idle == map[] && w.pool.borrowed == m
  {
    if m == 0 {
      StartIsReachable(cfg);
      w := Start(cfg);
    } else {
      var w0 := CanAbandon(cfg, m - 1);
      var id := w0.pool.created;
      var w1 := Step(cfg, w0, Pop(0, "", 0));
      var w2 := Step(cfg, w1, CheckCap(0));
      var w3 := Step(cfg, w2, Connect(0, true));
      MissedGet(cfg, w0, 0, "", 0);
      Connects(cfg, w0, 0, "");
      assert id in w3.held;
      w := Step(cfg, w3, Abandon(id));
      assert w == AbandonStep(w3, id);
      hide Reachable, Step;
      StepIsReachable(cfg, w0, Pop(0, "", 0));
      StepIsReachable(cfg, w1, CheckCap(0));
      StepIsReachable(cfg, w2, Connect(0, true));
      StepIsReachable(cfg, w3, Abandon(id));
    }
  }

  // ---------------------------------------------------------------- stale eviction

  /** Oldest first, none stored later than `now`. */
  predicate Ordered(bucket: seq<Idle>, now: nat) {
    && (forall i :: 0 <= i < |bucket| ==> bucket[i].since <= now)
    && forall i, j :: 0 <= i <= j < |bucket| ==> bucket[i].since <= bucket[j].since
  }

  function LastTime(h: seq<Event>): nat {
    if h == [] then 0
    else if h[|h| - 1].Pop? || h[|h| - 1].Store? then h[|h| - 1].now
    else LastTime(h[..|h| - 1])
  }

  /** The locked sections read a clock that never goes back. */
  predicate ClockOk(h: seq<Event>) {
    h == [] || (ClockOk(h[..|h| - 1]) && LastTime(h[..|h| - 1]) <= LastTime(h))
  }

  predicate AllOrdered(p: Pool, now: nat) { forall k :: k in p.idle ==> Ordered(p.idle[k], now) }

  lemma {:induction false} ReuseKeepsOrder(cfg: Config, p: Pool, key: string, now: nat)
    requires AllOrdered(p, now)
    ensures AllOrdered(Reuse(cfg, p, key, now).0, now)
  {
    if key in p.idle {
      PopFreshCounts(cfg, p.idle[key], now);
      var rest := PopFresh(cfg, p.idle[key], now).rest;
      hide PopFresh;
      assert Ordered(p.idle[key], now);
      assert Ordered(rest, now);
      hide Ordered;
    }
  }

  lemma {:induction false} StoredKeepsOrder(cfg: Config, p: Pool, key: string, conn: Conn, now: nat)
    requires AllOrdered(p, now)
    ensures AllOrdered(Stored(cfg, p, key, conn, now), now)
  {
    OrderedSnoc(Bucket(p, key), Idle(conn, now), now);
    hide Ordered;
  }

  lemma {:induction false} StepKeepsOrder(cfg: Config, w: World, e: Event, last: nat, now: nat)
    requires AllOrdered(w.pool, last) && last <= now
    requires e.Pop? || e.Store? ==> e.now == now
    ensures AllOrdered(Step(cfg, w, e).pool, now)
  {
    assert forall k :: k in w.pool.idle ==> Ordered(w.pool.idle[k], last) && Ordered(w.pool.idle[k], now);
    hide Ordered;
    if e.Pop? && e.get !in w.gets {
      ReuseKeepsOrder(cfg, w.pool, e.key, now);
      hide Reuse, AllOrdered;
    } else if e.Store? && e.id in w.returning {
      StoredKeepsOrder(cfg, w.pool, w.returning[e.id].key, w.returning[e.id].conn, now);
      hide Stored, AllOrdered;
    }
  }

  lemma {:induction false} OrderedSnoc(bucket: seq<Idle>, entry: Idle, now: nat)
    requires bucket == [] || Ordered(bucket, now)
    requires entry.since == now
    ensures Ordered(bucket, now) && Ordered(bucket + [entry], now)
  {
  }

  lemma {:induction false} BucketsAreOrdered(cfg: Config, h: seq<Event>)
    requires ClockOk(h)
    ensures AllOrdered(Run(cfg, h).pool, LastTime(h))
  {
    if h != [] {
      var front := h[..|h| - 1];
      BucketsAreOrdered(cfg, front);
      hide AllOrdered, Step;
      StepKeepsOrder(cfg, Run(cfg, front), h[|h| - 1], LastTime(front), LastTime(h));
    }
  }

  lemma {:induction false} AllStale(cfg: Config, bucket: seq<Idle>, now: nat)
    requires forall i :: 0 <= i < |bucket| ==> Stale(cfg, bucket[i], now)
    ensures PopFresh(cfg, bucket, now) == Popped([], None, |bucket|)
  {
    if bucket != [] { AllStale(cfg, bucket[..|bucket| - 1], now); }
  }

  /** With a clock that never goes back, a get takes the bucket's most recently returned connection, or
      finds that one stale and empties the whole bucket. */
  lemma {:induction false} EvictionIsAllOrNothing(cfg: Config, h: seq<Event>, key: string, now: nat)
    requires ClockOk(h) && LastTime(h) <= now
    ensures var pool := Run(cfg, h).pool;
            var bucket := Bucket(pool, key);
            var (p, conn) := Reuse(cfg, pool, key, now);
            if bucket != [] && !Stale(cfg, bucket[|bucket| - 1], now)
            then conn == Some(bucket[|bucket| - 1].conn) && Bucket(p, key) == bucket[..|bucket| - 1]
                 && p.evicted == pool.evicted
            else conn == None && Bucket(p, key) == [] && p.evicted == pool.evicted + |bucket|
  {
    BucketsAreOrdered(cfg, h);
    var bucket := Bucket(Run(cfg, h).pool, key);
    if bucket != [] && Stale(cfg, bucket[|bucket| - 1], now) {
      assert Ordered(bucket, LastTime(h));
      AllStale(cfg, bucket, now);
    }
  }

  // ---------------------------------------------------------------- which requests share connections

  /** The database a request means: the one it names, else the configured one; an empty name means none. */
  function Meant(cfg: Config, database: Option<string>): Option<string> {
    match database
    case Some("") => None
    case Some(name) => Some(name)
    case None =>
      match cfg.database
      case Some("") => None
      case Some(name) => Some(name)
      case None => None
  }

  lemma {:induction false} KeyIsMeant(cfg: Config, database: Option<string>)
    ensures ConnectTo(Key(cfg, database)) == Meant(cfg, database)
    ensures Key(cfg, database) == match Meant(cfg, database) { case Some(name) => name case None => "" }
  {
  }

  ghost function Served(cfg: Config, rs: seq<Request>): Pool {
    if |rs| == 0 then Empty(cfg) else Answer(cfg, Served(cfg, rs[..|rs| - 1]), rs[|rs| - 1]).0
  }

  /** The put at position `j` of the run returned this connection, fit for reuse, at this time, under a
      request for the same database. */
  predicate PutAt(cfg: Config, rs: seq<Request>, j: nat, meant: Option<string>, entry: Idle) {
    && j < |rs| && rs[j].PutFor? && rs[j].conn == entry.conn && rs[j].now == entry.since
    && entry.conn.healthy && !entry.conn.inTransaction && Meant(cfg, rs[j].database) == meant
  }

  ghost predicate CameBack(cfg: Config, rs: seq<Request>, key: string, entry: Idle) {
    exists j: nat :: PutAt(cfg, rs, j, ConnectTo(key), entry)
  }

  lemma {:induction false} CameBackGrows(cfg: Config, rs: seq<Request>, key: string, entry: Idle)
    requires |rs| > 0 && CameBack(cfg, rs[..|rs| - 1], key, entry)
    ensures CameBack(cfg, rs, key, entry)
  {
    var j: nat :| PutAt(cfg, rs[..|rs| - 1], j, ConnectTo(key), entry);
    assert PutAt(cfg, rs, j, ConnectTo(key), entry);
  }

  ghost predicate AllCameBack(cfg: Config, rs: seq<Request>, idle: map<string, seq<Idle>>) {
    forall k, i :: k in idle && 0 <= i < |idle[k]| ==> CameBack(cfg, rs, k, idle[k][i])
  }

  lemma {:induction false} PutCameBack(cfg: Config, rs: seq<Request>, p: Pool)
    requires |rs| > 0 && rs[|rs| - 1].PutFor? && AllCameBack(cfg, rs, p.idle)
    ensures AllCameBack(cfg, rs, Answer(cfg, p, rs[|rs| - 1]).0.idle)
  {
    var r := rs[|rs| - 1];
    KeyIsMeant(cfg, r.database);
    if r.conn.healthy && !r.conn.inTransaction {
      assert PutAt(cfg, rs, |rs| - 1, Meant(cfg, r.database), Idle(r.conn, r.now));
    }
    hide CameBack, Key, ConnectTo, Meant;
  }

  lemma {:induction false} GetCameBack(cfg: Config, rs: seq<Request>, p: Pool, r: Request)
    requires r.GetFor? && AllCameBack(cfg, rs, p.idle)
    ensures AllCameBack(cfg, rs, Answer(cfg, p, r).0.idle)
  {
    var key := Key(cfg, r.database);
    hide CameBack, PopFresh, Key, ConnectTo, UnderCap;
    if key in p.idle { PopFreshCounts(cfg, p.idle[key], r.now); }
  }

  /** Every idle connection came back earlier in the run, under a request for the database of its bucket. */
  lemma {:induction false} IdleCameBack(cfg: Config, rs: seq<Request>)
    ensures AllCameBack(cfg, rs, Served(cfg, rs).idle)
  {
    if |rs| > 0 {
      var front := rs[..|rs| - 1];
      IdleCameBack(cfg, front);
      hide CameBack, Answer;
      forall key: string, entry | CameBack(cfg, front, key, entry) ensures CameBack(cfg, rs, key, entry) {
        CameBackGrows(cfg, rs, key, entry);
      }
      if rs[|rs| - 1].PutFor? {
        PutCameBack(cfg, rs, Served(cfg, front));
      } else {
        GetCameBack(cfg, rs, Served(cfg, front), rs[|rs| - 1]);
      }
    }
  }

  /** The connection a get takes out of its bucket was not stale. */
  lemma {:induction false} PopFreshIsFresh(cfg: Config, bucket: seq<Idle>, now: nat) returns (i: nat)
    requires PopFresh(cfg, bucket, now).conn.Some?
    ensures i < |bucket| && Some(bucket[i].conn) == PopFresh(cfg, bucket, now).conn
    ensures cfg.maxIdle.Some? ==> 0 < cfg.maxIdle.value && now < bucket[i].since + cfg.maxIdle.value
  {
    i := |bucket| - 1;
    if Stale(cfg, bucket[i], now) { i := PopFreshIsFresh(cfg, bucket[..i], now); }
  }

  /** Whatever a get hands out was opened for it, with the database it means, or came back before: put
      under a request for the same database, healthy, outside a transaction, and less than the idle limit
      ago. */
  lemma {:induction false} HandedOutFrom(
      cfg: Config, rs: seq<Request>, database: Option<string>, now: nat, dial: Option<string> -> Option<Conn>)
    ensures var conn := Answer(cfg, Served(cfg, rs), GetFor(database, now, dial)).1;
            conn.Some? ==>
              || conn == dial(Meant(cfg, database))
              || exists j :: 0 <= j < |rs| && rs[j].PutFor? && rs[j].conn == conn.value
                   && conn.value.healthy && !conn.value.inTransaction
                   && Meant(cfg, rs[j].database) == Meant(cfg, database)
                   && (cfg.maxIdle.Some? ==> 0 < cfg.maxIdle.value && now < rs[j].now + cfg.maxIdle.value)
  {
    var p, key := Served(cfg, rs), Key(cfg, database);
    KeyIsMeant(cfg, database);
    IdleCameBack(cfg, rs);
    hide Served, Meant, Key, ConnectTo, PopFresh, UnderCap;
    if Reuse(cfg, p, key, now).1.Some? {
      var i := PopFreshIsFresh(cfg, p.idle[key], now);
      assert CameBack(cfg, rs, key, p.idle[key][i]);
      var j: nat :| PutAt(cfg, rs, j, ConnectTo(key), p.idle[key][i]);
    }
  }

  /** Connecting to a database gives a connection to that database. */
  ghost predicate Dials(dial: Option<string> -> Option<Conn>) {
    forall d :: dial(d).Some? ==> dial(d).value.database == d
  }

  /** Sessions put a connection back under a request that means the database it was opened with. */
  predicate PutsHome(cfg: Config, rs: seq<Request>) {
    forall i :: 0 <= i < |rs| && rs[i].PutFor? ==> rs[i].conn.database == Meant(cfg, rs[i].database)
  }

  /** Then every connection handed out was opened for the database its request means. */
  lemma {:induction false} OpenedForRequest(
      cfg: Config, rs: seq<Request>, database: Option<string>, now: nat, dial: Option<string> -> Option<Conn>)
    requires PutsHome(cfg, rs) && Dials(dial)
    ensures var conn := Answer(cfg, Served(cfg, rs), GetFor(database, now, dial)).1;
            conn.Some? ==>
              && (database.Some? && database.value != "" ==> conn.value.database == database)
              && (database == Some("") ==> conn.value.database == None)
              && (database == None && cfg.database != Some("") ==> conn.value.database == cfg.database)
              && (database == None && cfg.database == Some("") ==> conn.value.database == None)
  {
    HandedOutFrom(cfg, rs, database, now, dial);
    hide Answer, Served;
  }

  /** How many idle connections wait under the name of a database. */
  function IdleFor(p: Pool, meant: Option<string>): nat {
    var name := match meant { case Some(name) => name case None => "" };
    if name in p.idle then |p.idle[name]| else 0
  }

  predicate Without(bucket: seq<Idle>, conn: Conn) { forall i :: 0 <= i < |bucket| ==> bucket[i].conn != conn }

  lemma {:induction false} NotPopped(cfg: Config, bucket: seq<Idle>, conn: Conn, now: nat)
    requires Without(bucket, conn)
    ensures PopFresh(cfg, bucket, now).conn != Some(conn)
  {
    PopFreshCounts(cfg, bucket, now);
  }

  lemma {:induction false} PoppedIff(cfg: Config, bucket: seq<Idle>, conn: Conn, at: nat, now: nat)
    requires Without(bucket, conn)
    ensures PopFresh(cfg, bucket + [Idle(conn, at)], now).conn == Some(conn) <==>
            cfg.maxIdle.None? || (0 < cfg.maxIdle.value && now < at + cfg.maxIdle.value)
  {
    var more := bucket + [Idle(conn, at)];
    assert more[..|more| - 1] == bucket;
    NotPopped(cfg, bucket, conn, now);
  }

  lemma {:induction false} NothingDialled(cfg: Config, p: Pool, key: string, now: nat)
    ensures Get(cfg, p, key, now, None).1 == if key in p.idle then PopFresh(cfg, p.idle[key], now).conn else None
  {
    hide PopFresh, UnderCap;
  }

  lemma {:induction false} PutThenGet(cfg: Config, p: Pool, key: string, conn: Conn, at: nat, key': string, now: nat)
    requires Without(Bucket(p, key), conn) && Without(Bucket(p, key'), conn)
    ensures Get(cfg, Put(cfg, p, key, conn, at), key', now, None).1 == Some(conn) <==>
              && key == key' && conn.healthy && !conn.inTransaction && |Bucket(p, key)| < cfg.maxSize
              && (cfg.maxIdle.None? || (0 < cfg.maxIdle.value && now < at + cfg.maxIdle.value))
  {
    hide PopFresh, Get, Without;
    NothingDialled(cfg, Put(cfg, p, key, conn, at), key', now);
    NotPopped(cfg, Bucket(p, key'), conn, now);
    PoppedIff(cfg, Bucket(p, key), conn, at, now);
  }

  /** A connection that is put back is handed out to the next request exactly when that request means the
      same database, the connection is healthy and outside a transaction, its bucket had room, and the
      request comes less than the idle limit later. */
  lemma {:induction false} ReusedIff(
      cfg: Config, p: Pool, database: Option<string>, conn: Conn, at: nat, other: Option<string>, now: nat)
    requires forall k, i :: k in p.idle && 0 <= i < |p.idle[k]| ==> p.idle[k][i].conn != conn
    ensures var p' := Answer(cfg, p, PutFor(database, conn, at)).0;
            Answer(cfg, p', GetFor(other, now, _ => None)).1 == Some(conn) <==>
              && Meant(cfg, database) == Meant(cfg, other)
              && conn.healthy && !conn.inTransaction
              && IdleFor(p, Meant(cfg, database)) < cfg.maxSize
              && (cfg.maxIdle.None? || (0 < cfg.maxIdle.value && now < at + cfg.maxIdle.value))
  {
    hide Get, Put;
    KeyIsMeant(cfg, database);
    KeyIsMeant(cfg, other);
    hide Meant, Key, ConnectTo;
    PutThenGet(cfg, p, Key(cfg, database), conn, at, Key(cfg, other), now);
  }

  // ---------------------------------------------------------------- the connection cap

  /** Calls run to completion.  A put returns a connection; its number does not matter here. */
  datatype Call = GetCall(key: string, now: nat, dialled: Option<Conn>) | PutCall(key: string, conn: Conn, now: nat)

  function After(cfg: Config, calls: seq<Call>): Pool {
    if calls == [] then Empty(cfg)
    else
      var p := After(cfg, calls[..|calls| - 1]);
      match calls[|calls| - 1]
      case GetCall(key, now, dialled) => Get(cfg, p, key, now, dialled).0
      case PutCall(key, conn, now) => Put(cfg, p, key, conn, now)
  }

  predicate OneKey(calls: seq<Call>, key: string) { forall i :: 0 <= i < |calls| ==> calls[i].key == key }

  lemma {:induction false} OnlyKey(cfg: Config, calls: seq<Call>, key: string)
    requires OneKey(calls, key)
    ensures After(cfg, calls).idle.Keys <= {key}
  {
    if calls != [] {
      OnlyKey(cfg, calls[..|calls| - 1], key);
      hide PopFresh;
    }
  }

  lemma {:induction false} EmptyCount()
    ensures IdleCount(map[]) == 0
  {
    var none: map<string, seq<Idle>> := map[];
    assert (map k | k in none :: |none[k]|) == map[];
  }

  /** The cap as the pool can keep it: idle plus borrowed. */
  ghost predicate WithinCap(cfg: Config, p: Pool) {
    cfg.maxConnections.Some? ==> IdleCount(p.idle) + p.borrowed <= cfg.maxConnections.value
  }

  /** No connection more fits within the cap. */
  ghost predicate Full(cfg: Config, p: Pool)
    requires cfg.maxConnections.Some?
  {
    IdleCount(p.idle) + p.borrowed == cfg.maxConnections.value
  }

  /** The steps that add a connection to the idle and borrowed ones: a get that was let past the cap
      check opens one, or a put stores one in a bucket with room. */
  predicate Adds(cfg: Config, w: World, e: Event) {
    || (e.Connect? && e.ok && e.get in w.gets && w.gets[e.get].Admitted?)
    || (e.Store? && e.id in w.returning && |Bucket(w.pool, w.returning[e.id].key)| < cfg.maxSize)
  }

  /** The step adds a connection when no more fits. */
  ghost predicate Overfills(cfg: Config, w: World, e: Event)
    requires cfg.maxConnections.Some?
  {
    Full(cfg, w.pool) && Adds(cfg, w, e)
  }

  lemma {:induction false} OpenBreaksCapIff(cfg: Config, p: Pool)
    requires cfg.maxConnections.Some? && WithinCap(cfg, p)
    ensures !WithinCap(cfg, Opened(p)) <==> Full(cfg, p)
  {
    hide IdleCount;
  }

  lemma {:induction false} StoreBreaksCapIff(cfg: Config, p: Pool, r: Return, now: nat)
    requires cfg.maxConnections.Some? && WithinCap(cfg, p)
    ensures !WithinCap(cfg, Stored(cfg, p, r.key, r.conn, now)) <==>
            Full(cfg, p) && |Bucket(p, r.key)| < cfg.maxSize
  {
    StoreCounts(cfg, p, r, now);
    hide IdleCount, Stored, Bucket;
  }

  lemma {:induction false} ReuseKeepsCap(cfg: Config, p: Pool, key: string, now: nat)
    requires WithinCap(cfg, p)
    ensures WithinCap(cfg, Reuse(cfg, p, key, now).0)
  {
    ReuseCounts(cfg, p, key, now);
    assert Reuse(cfg, p, key, now).0.evicted >= p.evicted;
    hide IdleCount, Reuse;
  }

  /** In every interleaving, with or without a queue, a step breaks the cap exactly when no connection
      more fits and the step adds one. */
  lemma {:induction false} StepBreaksCapIff(cfg: Config, w: World, e: Event)
    requires cfg.maxConnections.Some? && WithinCap(cfg, w.pool)
    ensures !WithinCap(cfg, Step(cfg, w, e).pool) <==> Overfills(cfg, w, e)
  {
    match e
    case Pop(_, key, now) => ReuseKeepsCap(cfg, w.pool, key, now); hide WithinCap, Reuse, Full;
    case Connect(_, _) => OpenBreaksCapIff(cfg, w.pool); hide WithinCap, Full;
    case Store(id, now) =>
      if id in w.returning { StoreBreaksCapIff(cfg, w.pool, w.returning[id], now); }
      hide WithinCap, Stored, Full;
    case CheckCap(_) => hide IdleCount;
    case TakePermit(_) => hide IdleCount;
    case TimeOut(_) => hide IdleCount;
    case Release(_, _) => hide IdleCount;
    case Abandon(_) => hide IdleCount;
  }

  ghost predicate StaysWithinCap(cfg: Config, h: seq<Event>) {
    WithinCap(cfg, Run(cfg, h).pool) && (h != [] ==> StaysWithinCap(cfg, h[..|h| - 1]))
  }

  /** A run stays within the cap throughout exactly when none of its steps adds a connection while no
      more fits. */
  lemma {:induction false} RunKeepsCapIff(cfg: Config, h: seq<Event>)
    requires cfg.maxConnections.Some?
    ensures StaysWithinCap(cfg, h) <==> forall k :: 0 <= k < |h| ==> !Overfills(cfg, Run(cfg, h[..k]), h[k])
  {
    if h == [] {
      StartIsWithinCap(cfg);
    } else {
      var front := h[..|h| - 1];
      RunKeepsCapIff(cfg, front);
      hide Overfills, WithinCap;
      OverfillsSnoc(cfg, h);
      if StaysWithinCap(cfg, front) { StepBreaksCapIff(cfg, Run(cfg, front), h[|h| - 1]); }
      hide Step;
    }
  }

  lemma {:induction false} OverfillsSnoc(cfg: Config, h: seq<Event>)
    requires cfg.maxConnections.Some? && h != []
    ensures var front := h[..|h| - 1];
            (forall k :: 0 <= k < |h| ==> !Overfills(cfg, Run(cfg, h[..k]), h[k])) <==>
            && (forall k :: 0 <= k < |front| ==> !Overfills(cfg, Run(cfg, front[..k]), front[k]))
            && !Overfills(cfg, Run(cfg, front), h[|front|])
  {
    hide Overfills, Run;
    var front := h[..|h| - 1];
    assert forall k :: 0 <= k < |front| ==> front[..k] == h[..k];
  }

  lemma {:induction false} StartIsWithinCap(cfg: Config)
    ensures WithinCap(cfg, Run(cfg, []).pool)
  {
    EmptyCount();
  }

  /** For one call after the other, with no wait queue: a get breaks the cap exactly when it opens a
      connection while the idle connections of the other databases fill it up.  Its own bucket is then
      empty. */
  lemma {:induction false} GetBreaksCapIff(cfg: Config, p: Pool, key: string, now: nat, dialled: Option<Conn>)
    requires cfg.waitQueue == 0 && p.permits == 0 && cfg.maxConnections.Some?
    requires WithinCap(cfg, p)
    ensures var p' := Get(cfg, p, key, now, dialled).0;
            && (!WithinCap(cfg, p') <==>
                && Reuse(cfg, p, key, now).1.None? && dialled.Some? && p.borrowed < cfg.maxConnections.value
                && IdleCount(p.idle - {key}) + p.borrowed == cfg.maxConnections.value)
            && (!WithinCap(cfg, p') ==> Bucket(p', key) == [])
  {
    var (p1, reused) := Reuse(cfg, p, key, now);
    ReuseCounts(cfg, p, key, now);
    ReuseKeepsCap(cfg, p, key, now);
    OpenBreaksCapIff(cfg, p1);
    if reused.None? {
      if key in p.idle { PopFreshCounts(cfg, p.idle[key], now); }
      assert Bucket(p1, key) == [] && p1.idle - {key} == p.idle - {key};
      IdleCountSplit(p1.idle, key);
    }
    hide Reuse, IdleCount;
  }

  lemma {:induction false} PutKeepsCap(cfg: Config, p: Pool, key: string, conn: Conn, now: nat)
    requires WithinCap(cfg, p)
    ensures WithinCap(cfg, Put(cfg, p, key, conn, now))
  {
    StoreCounts(cfg, Released(cfg, p), Return(conn, key), now);
    hide IdleCount, Stored, Bucket;
  }

  /** With no wait queue and a single database, calls run to completion keep idle plus borrowed within
      the cap. */
  lemma {:induction false} CapHoldsForOneKey(cfg: Config, calls: seq<Call>, key: string)
    requires cfg.waitQueue == 0 && OneKey(calls, key)
    ensures WithinCap(cfg, After(cfg, calls)) && After(cfg, calls).permits == 0
  {
    EmptyCount();
    if calls != [] {
      var front, c := calls[..|calls| - 1], calls[|calls| - 1];
      CapHoldsForOneKey(cfg, front, key);
      OnlyKey(cfg, front, key);
      var p := After(cfg, front);
      assert p.idle - {key} == map[];
      hide IdleCount, Reuse, Stored, OneKey;
      match c
      case GetCall(_, now, dialled) =>
        ReuseCounts(cfg, p, key, now);
        if cfg.maxConnections.Some? { GetBreaksCapIff(cfg, p, key, now, dialled); }
      case PutCall(_, conn, now) =>
        StoreCounts(cfg, Released(cfg, p), Return(conn, key), now);
        PutKeepsCap(cfg, p, key, conn, now);
    }
  }

  // ---------------------------------------------------------------- runs that get past the cap

  /** One connection allowed, one idle at most in each bucket, no queue. */
  const ONE := Config(1, None, Some(1), 0, None)

  function Sharing(id: nat): Conn { Conn(id, true, false, None) }

  /** Two gets for one database pass the check before either connects. */
  function OverlappingGets(): seq<Event> {
    [Pop(0, "", 0), CheckCap(0), Pop(1, "", 0), CheckCap(1), Connect(0, true), Connect(1, true)]
  }

  lemma {:induction false} OverlappingGetsExceedCap()
    ensures Run(ONE, OverlappingGets()).pool.borrowed == 2
  {
    hide Run, Step;
    var h := OverlappingGets();
    RunNothing(ONE, h);
    RunPrefix(ONE, h, 0);
    RunPrefix(ONE, h, 1);
    RunPrefix(ONE, h, 2);
    RunPrefix(ONE, h, 3);
    RunPrefix(ONE, h, 4);
    RunPrefix(ONE, h, 5);
    assert h[..6] == h;
    var w := Start(ONE);
    var w2 := w.(gets := w.gets[0 := Admitted("")]);
    var w4 := w2.(gets := w2.gets[1 := Admitted("")]);
    MissedGet(ONE, w, 0, "", 0);
    MissedGet(ONE, w2, 1, "", 0);
    var w' := w.(gets := w.gets[1 := Admitted("")]);
    assert w'.gets[0 := Admitted("")] == w4.gets;
    Connects(ONE, w', 0, "");
    var w5 := w.(pool := Opened(w.pool), held := w.held + multiset{w.pool.created});
    Connects(ONE, w5, 1, "");
  }

  /** The world after the first connection was opened, when it was released, and when it was stored. */
  const OPENED := World(Pool(map[], 1, 1, 0, 0, 0), map[], multiset{0}, map[], 0, 0, 0, 0)

  function FirstReleased(key: string): World {
    World(Pool(map[], 0, 1, 0, 0, 0), map[], multiset{}, map[0 := Return(Sharing(0), key)], 0, 0, 1, 0)
  }

  function FirstStored(key: string): World {
    World(Pool(map[key := [Idle(Sharing(0), 0)]], 0, 1, 0, 0, 0), map[], multiset{}, map[], 0, 0, 1, 0)
  }

  lemma {:induction false} PutOfFirst(key: string)
    ensures Step(ONE, OPENED, Release(Sharing(0), key)) == FirstReleased(key)
    ensures Step(ONE, FirstReleased(key), Store(0, 0)) == FirstStored(key)
  {
    assert map[0 := Return(Sharing(0), key)] - {0} == map[];
    assert [] + [Idle(Sharing(0), 0)] == [Idle(Sharing(0), 0)];
  }

  /** A get runs while a connection to the same database is on its way back. */
  function GetDuringPut(): seq<Event> {
    [Pop(0, "", 0), CheckCap(0), Connect(0, true), Release(Sharing(0), ""),
     Pop(1, "", 0), CheckCap(1), Connect(1, true), Store(0, 0)]
  }

  lemma {:induction false} GetDuringPutExceedsCap()
    ensures !WithinCap(ONE, Run(ONE, GetDuringPut()).pool)
  {
    hide Run, Step, IdleCount;
    var h := GetDuringPut();
    RunNothing(ONE, h);
    RunOpens(ONE, h, 0, 0, "");
    RunPrefix(ONE, h, 3);
    assert Run(ONE, h[..3]).held == OPENED.held;
    PutOfFirst("");
    assert Run(ONE, h[..4]) == FirstReleased("");
    RunOpens(ONE, h, 4, 1, "");
    RunPrefix(ONE, h, 7);
    assert h[..8] == h;
    EmptyCount();
    StepBreaksCapIff(ONE, Run(ONE, h[..7]), Store(0, 0));
  }

  const A: string := "a"
  const B: string := "b"

  /** No two calls overlap: a connection to A goes back, one to B is opened, and A's is reused. */
  function TwoDatabases(): seq<Event> {
    [Pop(0, A, 0), CheckCap(0), Connect(0, true), Release(Sharing(0), A), Store(0, 0),
     Pop(0, B, 0), CheckCap(0), Connect(0, true), Pop(0, A, 0)]
  }

  lemma {:induction false} ReuseOfFirst()
    ensures var w := FirstStored(A);
            Step(ONE, w.(pool := Opened(w.pool), held := w.held + multiset{w.pool.created}), Pop(0, A, 0)).pool.borrowed == 2
  {
  }

  lemma {:induction false} TwoDatabasesExceedCap()
    ensures Run(ONE, TwoDatabases()).pool.borrowed == 2
  {
    hide Run, Step;
    var h := TwoDatabases();
    RunNothing(ONE, h);
    RunOpens(ONE, h, 0, 0, A);
    RunPrefix(ONE, h, 3);
    assert Run(ONE, h[..3]).held == OPENED.held;
    RunPrefix(ONE, h, 4);
    PutOfFirst(A);
    assert Run(ONE, h[..5]) == FirstStored(A);
    assert A != B by { assert A[0] != B[0]; }
    RunOpens(ONE, h, 5, 0, B);
    RunPrefix(ONE, h, 8);
    ReuseOfFirst();
    assert h[..9] == h;
  }

  // ---------------------------------------------------------------- when the cap bounds checkouts at all

  /** Some run has `n` connections checked out at once. */
  ghost predicate CanBorrow(cfg: Config, n: nat) { exists w :: Reachable(cfg, w) && w.pool.borrowed == n }

  /** A connection that was put back can be handed out again. */
  predicate Reuses(cfg: Config) { cfg.maxSize > 0 && cfg.maxIdle != Some(0) }

  function AllAdmitted(n: nat): (gets: map<nat, Phase>)
    ensures forall g :: g in gets ==> g < n
  {
    if n == 0 then map[] else AllAdmitted(n - 1)[n - 1 := Admitted("")]
  }

  /** Any number of gets pass the cap check before the first of them connects. */
  lemma {:induction false} AdmitsMany(cfg: Config, n: nat)
    requires cfg.maxConnections != Some(0)
    ensures Reachable(cfg, Start(cfg).(gets := AllAdmitted(n)))
  {
    hide Reachable, Step;
    StartIsReachable(cfg);
    if n > 0 {
      AdmitsMany(cfg, n - 1);
      var w := Start(cfg).(gets := AllAdmitted(n - 1));
      MissedGet(cfg, w, n - 1, "", 0);
      StepIsReachable(cfg, w, Pop(n - 1, "", 0));
      StepIsReachable(cfg, Step(cfg, w, Pop(n - 1, "", 0)), CheckCap(n - 1));
    }
  }

  /** And all of them connect, down to the first `m`. */
  lemma {:induction false} OpensMany(cfg: Config, n: nat, m: nat) returns (w: World)
    requires cfg.maxConnections != Some(0) && m <= n
    ensures Reachable(cfg, w) && w.pool.borrowed == n - m && w.gets == AllAdmitted(m)
    decreases n - m
  {
    hide Reachable, Step;
    if m == n {
      AdmitsMany(cfg, n);
      w := Start(cfg).(gets := AllAdmitted(n));
    } else {
      var w0 := OpensMany(cfg, n, m + 1);
      w := Step(cfg, w0, Connect(m, true));
      StepIsReachable(cfg, w0, Connect(m, true));
      Connects(cfg, w0.(gets := AllAdmitted(m)), m, "");
    }
  }

  lemma {:induction false} PutsBack(cfg: Config, w: World, conn: Conn)
    requires conn.id in w.held && Reusable(conn) && w.returning == map[] && Bucket(w.pool, "") == [] && cfg.maxSize > 0
    ensures var w' := Step(cfg, Step(cfg, w, Release(conn, "")), Store(conn.id, 0));
            && w'.pool == Released(cfg, w.pool).(idle := w.pool.idle["" := [Idle(conn, 0)]])
            && w'.gets == w.gets && w'.returning == map[]
  {
    assert [] + [Idle(conn, 0)] == [Idle(conn, 0)];
    assert map[conn.id := Return(conn, "")] - {conn.id} == map[];
  }

  lemma {:induction false} TakesBack(cfg: Config, w: World, conn: Conn)
    requires w.gets == map[] && Bucket(w.pool, "") == [Idle(conn, 0)] && cfg.maxIdle != Some(0)
    ensures var w' := Step(cfg, w, Pop(0, "", 0));
            && w'.pool == w.pool.(idle := w.pool.idle["" := []], borrowed := w.pool.borrowed + 1,
                                  reused := w.pool.reused + 1)
            && w'.gets == w.gets && w'.returning == w.returning
  {
    var bucket := [Idle(conn, 0)];
    assert bucket[..0] == [] && !Stale(cfg, bucket[0], 0);
    assert PopFresh(cfg, bucket, 0) == Popped([], Some(conn), 0);
  }

  /** A put of a fresh connection and the get that reuses it leave the checkouts as they were, and one
      permit more. */
  lemma {:induction false} PutThenReuse(cfg: Config, w: World, conn: Conn) returns (w': World)
    requires Reachable(cfg, w) && w.gets == map[] && w.returning == map[] && Bucket(w.pool, "") == []
    requires conn.id in w.held && Reusable(conn) && cfg.waitQueue > 0 && Reuses(cfg)
    ensures Reachable(cfg, w') && w'.gets == map[] && w'.returning == map[] && Bucket(w'.pool, "") == []
    ensures w'.pool.borrowed == w.pool.borrowed && w'.pool.permits == w.pool.permits + 1
  {
    hide Reachable, Step;
    var w1 := Step(cfg, w, Release(conn, ""));
    var w2 := Step(cfg, w1, Store(conn.id, 0));
    w' := Step(cfg, w2, Pop(0, "", 0));
    StepIsReachable(cfg, w, Release(conn, ""));
    StepIsReachable(cfg, w1, Store(conn.id, 0));
    StepIsReachable(cfg, w2, Pop(0, "", 0));
    PutsBack(cfg, w, conn);
    TakesBack(cfg, w2, conn);
  }

  /** With no connection allowed, each permit lends a connection that reuse keeps lent for good. */
  lemma {:induction false} BorrowsPastZero(cfg: Config, n: nat) returns (w: World)
    requires cfg.maxConnections == Some(0) && cfg.waitQueue > 0 && Reuses(cfg)
    ensures Reachable(cfg, w) && w.gets == map[] && w.returning == map[] && Bucket(w.pool, "") == []
    ensures w.pool.borrowed == n && w.pool.permits == cfg.waitQueue
  {
    if n == 0 {
      StartIsReachable(cfg);
      w := Start(cfg);
    } else {
      var w0 := BorrowsPastZero(cfg, n - 1);
      hide Reachable;
      var w1 := GetOverCap(cfg, w0);
      w := PutThenReuse(cfg, w1, Sharing(w0.pool.created));
    }
  }

  ghost function AdmittedGets(w: World): set<nat> { set g | g in w.gets && w.gets[g].Admitted? }

  /** Every connection opened, and every get about to open one, used up a permit; none is reused. */
  ghost predicate Metered(w: World) {
    w.pool.created + |AdmittedGets(w)| <= w.admittedOverCap && w.pool.reused == 0
  }

  lemma {:induction false} NothingToReuse(cfg: Config, w: World, key: string, now: nat)
    requires Exclusive(w) && IdleIsReusable(cfg, w)
    requires !Reuses(cfg) || w.pool.created == 0
    ensures Reuse(cfg, w.pool, key, now).1.None?
  {
    if key in w.pool.idle {
      var bucket := w.pool.idle[key];
      assert bucket != [] ==> bucket[0].conn.id < w.pool.created;
      assert cfg.maxSize == 0 ==> bucket == [];
      AllStale(cfg, bucket, now);
    }
  }

  /** A step that admits no get and opens no connection leaves the meter alone. */
  lemma {:induction false} SameMeter(w: World, w': World)
    requires Metered(w) && w'.pool.created == w.pool.created && w'.pool.reused == w.pool.reused
    requires w'.admittedOverCap == w.admittedOverCap
    requires forall g :: g in w'.gets && w'.gets[g].Admitted? ==> g in w.gets && w.gets[g].Admitted?
    ensures Metered(w')
  {
    SubsetSize(AdmittedGets(w'), AdmittedGets(w));
  }

  lemma {:induction false} PermitIsMetered(w: World, g: nat)
    requires Metered(w) && g in w.gets && w.pool.permits > 0
    ensures Metered(PermitStep(w, g))
  {
    assert AdmittedGets(PermitStep(w, g)) == AdmittedGets(w) + {g};
  }

  lemma {:induction false} ConnectIsMetered(w: World, g: nat, ok: bool)
    requires Metered(w) && g in w.gets && w.gets[g].Admitted?
    ensures Metered(ConnectStep(w, g, ok))
  {
    assert g in AdmittedGets(w);
    assert AdmittedGets(ConnectStep(w, g, ok)) == AdmittedGets(w) - {g};
  }

  lemma {:induction false} StepKeepsMetered(cfg: Config, w: World, e: Event)
    requires cfg.maxConnections == Some(0) && w.pool.borrowed >= 0
    requires forall key, now :: Reuse(cfg, w.pool, key, now).1.None?
    requires Metered(w)
    ensures Metered(Step(cfg, w, e))
  {
    hide Metered, AdmittedGets;
    match e
    case Pop(g, key, now) =>
      ReuseCounts(cfg, w.pool, key, now);
      hide Reuse, IdleCount;
      SameMeter(w, Step(cfg, w, e));
    case CheckCap(g) => SameMeter(w, Step(cfg, w, e));
    case TakePermit(g) =>
      if g in w.gets && w.gets[g].Waiting? && w.pool.permits > 0 { PermitIsMetered(w, g); }
    case TimeOut(g) => SameMeter(w, Step(cfg, w, e));
    case Connect(g, ok) =>
      if g in w.gets && w.gets[g].Admitted? { ConnectIsMetered(w, g, ok); }
    case Release(_, _) => SameMeter(w, Step(cfg, w, e));
    case Abandon(_) => SameMeter(w, Step(cfg, w, e));
    case Store(_, _) => SameMeter(w, Step(cfg, w, e));
  }

  lemma {:induction false} MeteredRuns(cfg: Config, h: seq<Event>)
    requires cfg.maxConnections == Some(0) && (cfg.waitQueue == 0 || !Reuses(cfg))
    ensures Metered(Run(cfg, h))
  {
    if h == [] {
      assert AdmittedGets(Start(cfg)) == {};
    } else {
      var w := Run(cfg, h[..|h| - 1]);
      MeteredRuns(cfg, h[..|h| - 1]);
      OwnedAndConserved(cfg, h[..|h| - 1]);
      IdleStaysReusable(cfg, h[..|h| - 1]);
      OverCapIsPaidFor(cfg, h[..|h| - 1]);
      hide Step, Exclusive, IdleIsReusable, IdleCount;
      forall key, now ensures Reuse(cfg, w.pool, key, now).1.None? {
        NothingToReuse(cfg, w, key, now);
      }
      StepKeepsMetered(cfg, w, h[|h| - 1]);
    }
  }

  /** `max_connections` bounds the connections checked out only when it is 0 and, besides, there is no
      queue or nothing is ever reused; they then stay within the queue size.  Otherwise every number
      of them is reached. */
  lemma {:induction false} CapBoundsNothingIff(cfg: Config)
    ensures (forall n: nat :: CanBorrow(cfg, n)) <==>
            cfg.maxConnections != Some(0) || (cfg.waitQueue > 0 && cfg.maxSize > 0 && cfg.maxIdle != Some(0))
    ensures !(forall n: nat :: CanBorrow(cfg, n)) ==> forall w :: Reachable(cfg, w) ==> w.pool.borrowed <= cfg.waitQueue
  {
    if cfg.maxConnections != Some(0) {
      forall n: nat ensures CanBorrow(cfg, n) {
        var w := OpensMany(cfg, n, 0);
      }
    } else if cfg.waitQueue > 0 && Reuses(cfg) {
      forall n: nat ensures CanBorrow(cfg, n) {
        var w := BorrowsPastZero(cfg, n);
      }
    } else {
      forall w | Reachable(cfg, w) ensures w.pool.borrowed <= cfg.waitQueue {
        var h :| Run(cfg, h) == w;
        MeteredRuns(cfg, h);
        OwnedAndConserved(cfg, h);
        OverCapIsPaidFor(cfg, h);
      }
      assert !CanBorrow(cfg, cfg.waitQueue + 1);
    }
  }
}
