/** The checkout counters and the idle connections of the primary and the replicas while the effective
    primary moves.

    Pool 0 is the configured primary and pool i + 1 is replica i.  The counters are 64-bit and wrap.  A
    get of a primary connection honours the group-replication primary and then the failover replica; the
    matching put honours the failover replica alone. */
module Checkouts {
  import opened Prelude

  datatype Router = Router(borrowed: seq<nat>, failoverIdx: int, grPrimaryIdx: int)

  predicate Valid(r: Router) {
    |r.borrowed| >= 1 && forall p :: 0 <= p < |r.borrowed| ==> r.borrowed[p] < U64
  }

  function Start(replicas: nat): Router { Router(seq(replicas + 1, _ => 0), -1, -1) }

  predicate InRange(r: Router, idx: int) { 0 <= idx < |r.borrowed| - 1 }

  /** Where `get_primary_for_database` takes its connection. */
  function GetTarget(r: Router): (p: nat)
    requires |r.borrowed| >= 1
    ensures p < |r.borrowed|
  {
    if InRange(r, r.grPrimaryIdx) then r.grPrimaryIdx + 1
    else if InRange(r, r.failoverIdx) then r.failoverIdx + 1
    else 0
  }

  /** Where `put_primary_for_database` returns one. */
  function PutTarget(r: Router): (p: nat)
    requires |r.borrowed| >= 1
    ensures p < |r.borrowed|
  {
    if InRange(r, r.failoverIdx) then r.failoverIdx + 1 else 0
  }

  /** `fetch_add` and `fetch_sub` of one on a 64-bit counter. */
  function Up(b: nat): nat { (b + 1) % U64 }

  function Down(b: nat): nat { (b + U64 - 1) % U64 }

  function CountUp(r: Router, p: nat): Router
    requires p < |r.borrowed|
  {
    r.(borrowed := r.borrowed[p := Up(r.borrowed[p])])
  }

  function CountDown(r: Router, p: nat): Router
    requires p < |r.borrowed|
  {
    r.(borrowed := r.borrowed[p := Down(r.borrowed[p])])
  }

  class BackendRouter {
    var borrowed: seq<nat>
    var failoverIdx: int
    var grPrimaryIdx: int

    constructor (replicas: nat)
      ensures Value() == Start(replicas)
    {
      borrowed, failoverIdx, grPrimaryIdx := seq(replicas + 1, _ => 0), -1, -1;
    }

    function Value(): Router
      reads this
    {
      Router(borrowed, failoverIdx, grPrimaryIdx)
    }

    /** `get_primary_for_database`, when the pool it routes to gives a connection. */
    method GetPrimary() returns (pool: nat)
      requires |borrowed| >= 1
      modifies this
      ensures pool == GetTarget(old(Value())) && Value() == CountUp(old(Value()), pool)
      ensures pool == if 0 <= grPrimaryIdx < |borrowed| - 1 then grPrimaryIdx + 1
                      else if 0 <= failoverIdx < |borrowed| - 1 then failoverIdx + 1 else 0
    {
      pool := 0;
      if grPrimaryIdx >= 0 && grPrimaryIdx < |borrowed| - 1 {
        pool := grPrimaryIdx + 1;
      } else if failoverIdx >= 0 && failoverIdx < |borrowed| - 1 {
        pool := failoverIdx + 1;
      }
      borrowed := borrowed[pool := Up(borrowed[pool])];
    }

    /** `put_primary_for_database` */
    method PutPrimary()
      requires |borrowed| >= 1
      modifies this
      ensures Value() == CountDown(old(Value()), PutTarget(old(Value())))
    {
      var pool := 0;
      if failoverIdx >= 0 {
        var idx := failoverIdx;
        if idx < |borrowed| - 1 { pool := idx + 1; }
      }
      borrowed := borrowed[pool := Down(borrowed[pool])];
    }

    /** `put_replica_for_database`: an index out of range is ignored. */
    method PutReplica(idx: nat)
      requires |borrowed| >= 1
      modifies this
      ensures Value() == if InRange(old(Value()), idx) then CountDown(old(Value()), idx + 1) else old(Value())
    {
      if idx < |borrowed| - 1 {
        borrowed := borrowed[idx + 1 := Down(borrowed[idx + 1])];
      }
    }
  }

  // ---------------------------------------------------------------- runs

  /** A connection that is out: the pool to whose backend it was opened, and whether it was got as a
      primary connection. */
  datatype Conn = Conn(backend: nat, primary: bool)

  /** What happens: gets that succeed, with the backend of the idle connection reused or `None` for a new
      one; connections given up, with the pool that served them and whether the pool that takes them
      keeps them; evictions; and the monitors moving the effective primary.  A session may also drop its
      connection without a put. */
  datatype Event =
    | GetPrimary(reused: Option<nat>)
    | GetReplica(idx: nat, reused: Option<nat>)
    | PutPrimary(servedBy: nat, conn: Conn, kept: bool)
    | PutReplica(idx: nat, servedBy: nat, conn: Conn, kept: bool)
    | Abandon(servedBy: nat, conn: Conn)
    | Evict(pool: nat, backend: nat)
    | SetFailover(failover: int)
    | SetGrPrimary(primary: int)

  /** What an event does to the counters.  A replica get or put out of range does nothing. */
  function Drive(r: Router, e: Event): (r': Router)
    requires |r.borrowed| >= 1
    ensures |r'.borrowed| == |r.borrowed| && (Valid(r) ==> Valid(r'))
  {
    match e
    case GetPrimary(_) => CountUp(r, GetTarget(r))
    case GetReplica(i, _) => if InRange(r, i) then CountUp(r, i + 1) else r
    case PutPrimary(_, _, _) => CountDown(r, PutTarget(r))
    case PutReplica(i, _, _, _) => if InRange(r, i) then CountDown(r, i + 1) else r
    case Abandon(_, _) => r
    case Evict(_, _) => r
    case SetFailover(i) => r.(failoverIdx := i)
    case SetGrPrimary(i) => r.(grPrimaryIdx := i)
  }

  function Drives(replicas: nat, h: seq<Event>): (r: Router)
    ensures |r.borrowed| == replicas + 1
  {
    if h == [] then Start(replicas) else Drive(Drives(replicas, h[..|h| - 1]), h[|h| - 1])
  }

  /** Successful gets less in-range puts. */
  function Net(replicas: nat, h: seq<Event>): int {
    if h == [] then 0
    else
      Net(replicas, h[..|h| - 1]) +
      match h[|h| - 1]
      case GetPrimary(_) => 1
      case GetReplica(i, _) => if i < replicas then 1 else 0
      case PutPrimary(_, _, _) => -1
      case PutReplica(i, _, _, _) => if i < replicas then -1 else 0
      case _ => 0
  }

  function Tally(s: seq<nat>): nat {
    if s == [] then 0 else s[0] + Tally(s[1..])
  }

  lemma {:induction false} TallyUpdate(s: seq<nat>, i: nat, v: nat)
    requires i < |s|
    ensures Tally(s[i := v]) + s[i] == Tally(s) + v
    decreases s
  {
    var t := s[i := v];
    if i == 0 {
      assert t[1..] == s[1..];
    } else {
      assert t[1..] == s[1..][i - 1 := v];
      TallyUpdate(s[1..], i - 1, v);
    }
  }

  lemma {:induction false} TallyOfZeros(n: nat)
    ensures Tally(seq(n, _ => 0)) == 0
  {
    if n > 0 {
      assert seq(n, _ => 0)[1..] == seq(n - 1, _ => 0);
      TallyOfZeros(n - 1);
    }
  }

  /** Equal up to wrap-around. */
  ghost predicate Congruent(a: int, b: int) { exists k: int :: a == b + k * U64 }

  lemma CongruentShift(a: int, b: int, a': int, d: int)
    requires Congruent(a, b) && Congruent(a', a + d)
    ensures Congruent(a', b + d)
  {
    var k: int :| a == b + k * U64;
    var k': int :| a' == a + d + k' * U64;
    assert a' == b + d + (k + k') * U64;
  }

  lemma {:induction false} CountUpTotal(r: Router, p: nat)
    requires p < |r.borrowed|
    ensures Congruent(Tally(CountUp(r, p).borrowed), Tally(r.borrowed) + 1)
  {
    TallyUpdate(r.borrowed, p, Up(r.borrowed[p]));
    var k := (r.borrowed[p] + 1) / U64;
    assert Up(r.borrowed[p]) == r.borrowed[p] + 1 + (-k) * U64;
    assert Tally(CountUp(r, p).borrowed) == Tally(r.borrowed) + 1 + (-k) * U64;
  }

  lemma {:induction false} CountDownTotal(r: Router, p: nat)
    requires p < |r.borrowed|
    ensures Congruent(Tally(CountDown(r, p).borrowed), Tally(r.borrowed) - 1)
  {
    TallyUpdate(r.borrowed, p, Down(r.borrowed[p]));
    var k := (r.borrowed[p] + U64 - 1) / U64;
    assert Down(r.borrowed[p]) == r.borrowed[p] - 1 + (1 - k) * U64;
    assert Tally(CountDown(r, p).borrowed) == Tally(r.borrowed) - 1 + (1 - k) * U64;
  }

  /** The checkout total survives every rerouting: the counters of all pools add up to the successful
      gets less the in-range puts, up to wrap-around of the single counters. */
  lemma {:induction false} TotalSurvivesRerouting(replicas: nat, h: seq<Event>)
    ensures Congruent(Tally(Drives(replicas, h).borrowed), Net(replicas, h))
  {
    if h == [] {
      TallyOfZeros(replicas + 1);
      assert 0 == 0 + 0 * U64;
    } else {
      var r, e := Drives(replicas, h[..|h| - 1]), h[|h| - 1];
      TotalSurvivesRerouting(replicas, h[..|h| - 1]);
      DriveTotal(r, e, replicas);
      hide Tally, Congruent, Drive;
      CongruentShift(Tally(r.borrowed), Net(replicas, h[..|h| - 1]), Tally(Drive(r, e).borrowed),
                     Net(replicas, h) - Net(replicas, h[..|h| - 1]));
    }
  }

  lemma {:induction false} DriveTotal(r: Router, e: Event, replicas: nat)
    requires |r.borrowed| == replicas + 1
    ensures Congruent(Tally(Drive(r, e).borrowed), Tally(r.borrowed) +
                      match e
                      case GetPrimary(_) => 1
                      case GetReplica(i, _) => if i < replicas then 1 else 0
                      case PutPrimary(_, _, _) => -1
                      case PutReplica(i, _, _, _) => if i < replicas then -1 else 0
                      case _ => 0)
  {
    assert Congruent(Tally(r.borrowed), Tally(r.borrowed)) by { assert Tally(r.borrowed) == Tally(r.borrowed) + 0 * U64; }
    hide Tally, CountUp, CountDown, Congruent, GetTarget, PutTarget;
    match e
    case GetPrimary(_) => CountUpTotal(r, GetTarget(r));
    case GetReplica(i, _) => if i < replicas { CountUpTotal(r, i + 1); }
    case PutPrimary(_, _, _) => CountDownTotal(r, PutTarget(r));
    case PutReplica(i, _, _, _) => if i < replicas { CountDownTotal(r, i + 1); }
    case _ =>
  }

  // ---------------------------------------------------------------- which pool a primary call goes to

  /** The last index the group-replication monitor set, or -1. */
  function LastGr(h: seq<Event>): int {
    if h == [] then -1 else if h[|h| - 1].SetGrPrimary? then h[|h| - 1].primary else LastGr(h[..|h| - 1])
  }

  /** The last index the failover logic set, or -1. */
  function LastFailover(h: seq<Event>): int {
    if h == [] then -1 else if h[|h| - 1].SetFailover? then h[|h| - 1].failover else LastFailover(h[..|h| - 1])
  }

  lemma {:induction false} IndicesAreLast(replicas: nat, h: seq<Event>)
    ensures Drives(replicas, h).grPrimaryIdx == LastGr(h) && Drives(replicas, h).failoverIdx == LastFailover(h)
    ensures Valid(Drives(replicas, h))
  {
    if h != [] { IndicesAreLast(replicas, h[..|h| - 1]); }
  }

  lemma {:induction false} DrivesSnoc(replicas: nat, h: seq<Event>, e: Event)
    ensures Drives(replicas, h + [e]) == Drive(Drives(replicas, h), e)
  {
    assert (h + [e])[..|h|] == h;
    hide Drive;
  }

  /** `after` is `before` with the counter of one pool moved by `d`, wrapping at 2^64. */
  predicate Moved(before: seq<nat>, after: seq<nat>, pool: nat, d: int) {
    && pool < |before| == |after|
    && after[pool] == (before[pool] + d) % 0x1_0000_0000_0000_0000
    && forall p :: 0 <= p < |before| && p != pool ==> after[p] == before[p]
  }

  /** Over every history, a primary get counts up one pool: the group-replication primary last set, if it
      is a replica, whatever the failover index; else the failover replica last set, if it is one; else
      the configured primary. */
  lemma {:induction false} PrimaryGetGoesTo(replicas: nat, h: seq<Event>, reused: Option<nat>)
    ensures var g, f := LastGr(h), LastFailover(h);
            Moved(Drives(replicas, h).borrowed, Drives(replicas, h + [GetPrimary(reused)]).borrowed,
                  if 0 <= g < replicas then g + 1 else if 0 <= f < replicas then f + 1 else 0, 1)
  {
    IndicesAreLast(replicas, h);
    DrivesSnoc(replicas, h, GetPrimary(reused));
    hide Drives;
  }

  /** A primary put counts down the failover replica last set, if it is one, else the configured primary,
      whatever the group-replication primary. */
  lemma {:induction false} PrimaryPutGoesTo(replicas: nat, h: seq<Event>, servedBy: nat, conn: Conn, kept: bool)
    ensures var f := LastFailover(h);
            Moved(Drives(replicas, h).borrowed, Drives(replicas, h + [PutPrimary(servedBy, conn, kept)]).borrowed,
                  if 0 <= f < replicas then f + 1 else 0, -1)
  {
    IndicesAreLast(replicas, h);
    DrivesSnoc(replicas, h, PutPrimary(servedBy, conn, kept));
    hide Drives;
    WrapsDown(Drives(replicas, h).borrowed[PutTarget(Drives(replicas, h))]);
  }

  lemma {:induction false} WrapsDown(b: nat)
    requires b < U64
    ensures Down(b) == (b - 1) % U64
  {
  }

  /** A replica get or put moves the counter of that replica, and none when there is no such replica. */
  lemma {:induction false} ReplicaCallGoesTo(
      replicas: nat, h: seq<Event>, i: nat, reused: Option<nat>, servedBy: nat, conn: Conn, kept: bool)
    ensures var before := Drives(replicas, h).borrowed;
            var got := Drives(replicas, h + [GetReplica(i, reused)]).borrowed;
            var put := Drives(replicas, h + [PutReplica(i, servedBy, conn, kept)]).borrowed;
            if i < replicas then Moved(before, got, i + 1, 1) && Moved(before, put, i + 1, -1)
            else got == before && put == before
  {
    IndicesAreLast(replicas, h);
    DrivesSnoc(replicas, h, GetReplica(i, reused));
    DrivesSnoc(replicas, h, PutReplica(i, servedBy, conn, kept));
    hide Drives;
    if i < replicas { WrapsDown(Drives(replicas, h).borrowed[i + 1]); }
  }

  /** Both indices set: gets go to the group-replication primary and puts to the failover replica. */
  lemma {:induction false} BothIndicesSet(replicas: nat)
    requires replicas >= 2
    ensures var h := [SetFailover(0), SetGrPrimary(1)];
            var start, got := Drives(replicas, h).borrowed, Drives(replicas, h + [GetPrimary(None)]).borrowed;
            var put := Drives(replicas, h + [PutPrimary(2, Conn(2, true), true)]).borrowed;
            Moved(start, got, 2, 1) && Moved(start, put, 1, -1)
  {
    var h := [SetFailover(0), SetGrPrimary(1)];
    assert h[..1] == [SetFailover(0)] && LastGr(h) == 1 && LastFailover(h) == LastFailover(h[..1]) == 0;
    hide Drives, Moved, LastGr, LastFailover;
    PrimaryGetGoesTo(replicas, h, None);
    PrimaryPutGoesTo(replicas, h, 2, Conn(2, true), true);
  }

  // ---------------------------------------------------------------- each pool by itself

  /** The counters beside the truth: per pool, the connections it served that are out, and the backends
      of its idle ones. */
  datatype Ledger = Ledger(router: Router, out: seq<multiset<Conn>>, idle: seq<multiset<nat>>) {
    function Size(): nat { |router.borrowed| }

    predicate Ok() { Valid(router) && |out| == Size() && |idle| == Size() }
  }

  predicate Gets(e: Event) { e.GetPrimary? || e.GetReplica? }

  /** A session is done with a connection, one way or another. */
  predicate GivesUp(e: Event) { e.PutPrimary? || e.PutReplica? || e.Abandon? }

  /** The pool a get is served by. */
  function Source(r: Router, e: Event): (p: nat)
    requires |r.borrowed| >= 1 && Gets(e) && (e.GetReplica? ==> InRange(r, e.idx))
    ensures p < |r.borrowed|
  {
    if e.GetPrimary? then GetTarget(r) else e.idx + 1
  }

  /** The pool that takes a connection that is given up, if any does. */
  function Target(r: Router, e: Event): (p: Option<nat>)
    requires |r.borrowed| >= 1 && GivesUp(e)
    ensures p.Some? ==> p.value < |r.borrowed|
  {
    if e.PutPrimary? then Some(PutTarget(r))
    else if e.PutReplica? && InRange(r, e.idx) then Some(e.idx + 1)
    else None
  }

  /** The connection is stored as an idle one. */
  predicate Keeps(r: Router, e: Event)
    requires |r.borrowed| >= 1 && GivesUp(e)
  {
    Target(r, e).Some? && e.kept
  }

  /** Replica gets name a replica, only idle connections are reused or evicted, and only connections that
      are out are given up. */
  predicate Possible(l: Ledger, e: Event)
    requires l.Ok()
  {
    if Gets(e) then
      && (e.GetReplica? ==> InRange(l.router, e.idx))
      && (e.reused.Some? ==> e.reused.value in l.idle[Source(l.router, e)])
    else if GivesUp(e) then e.servedBy < l.Size() && e.conn in l.out[e.servedBy]
    else e.Evict? ==> e.pool < l.Size() && e.backend in l.idle[e.pool]
  }

  /** The connection a get hands out. */
  function Handed(r: Router, e: Event): Conn
    requires |r.borrowed| >= 1 && Gets(e) && (e.GetReplica? ==> InRange(r, e.idx))
  {
    Conn(if e.reused.Some? then e.reused.value else Source(r, e), e.GetPrimary?)
  }

  function OutAfter(l: Ledger, e: Event): seq<multiset<Conn>>
    requires l.Ok() && Possible(l, e)
  {
    if Gets(e) then
      var p := Source(l.router, e);
      l.out[p := l.out[p] + multiset{Handed(l.router, e)}]
    else if GivesUp(e) then l.out[e.servedBy := l.out[e.servedBy] - multiset{e.conn}]
    else l.out
  }

  function IdleAfter(l: Ledger, e: Event): seq<multiset<nat>>
    requires l.Ok() && Possible(l, e)
  {
    if Gets(e) then
      var p := Source(l.router, e);
      if e.reused.Some? then l.idle[p := l.idle[p] - multiset{e.reused.value}] else l.idle
    else if GivesUp(e) then
      if Keeps(l.router, e) then
        var p := Target(l.router, e).value;
        l.idle[p := l.idle[p] + multiset{e.conn.backend}]
      else l.idle
    else if e.Evict? then l.idle[e.pool := l.idle[e.pool] - multiset{e.backend}]
    else l.idle
  }

  function Step(l: Ledger, e: Event): (l': Ledger)
    requires l.Ok()
    ensures l'.Ok() && l'.Size() == l.Size()
  {
    if Possible(l, e) then Ledger(Drive(l.router, e), OutAfter(l, e), IdleAfter(l, e)) else l
  }

  function Run(replicas: nat, h: seq<Event>): (l: Ledger)
    ensures l.Ok() && l.Size() == replicas + 1
  {
    if h == [] then Ledger(Start(replicas), seq(replicas + 1, _ => multiset{}), seq(replicas + 1, _ => multiset{}))
    else Step(Run(replicas, h[..|h| - 1]), h[|h| - 1])
  }

  lemma {:induction false} RunPrefix(replicas: nat, h: seq<Event>, k: nat)
    requires k < |h|
    ensures Run(replicas, h[..k + 1]) == Step(Run(replicas, h[..k]), h[k])
  {
    assert h[..k + 1][..k] == h[..k];
    hide Step;
  }

  // ---------------------------------------------------------------- when the counters are exact

  /** Counter by counter, up to wrap-around. */
  predicate Tracks(b: seq<nat>, out: seq<multiset<Conn>>)
    requires |b| == |out|
  {
    forall p :: 0 <= p < |b| ==> b[p] == |out[p]| % U64
  }

  lemma {:induction false} WrapsAlike(n: nat)
    ensures Up(n % U64) == (n + 1) % U64 && Down((n + 1) % U64) == n % U64
    ensures Down(n % U64) != n % U64
  {
  }

  lemma {:induction false} TracksUp(b: seq<nat>, out: seq<multiset<Conn>>, p: nat, c: Conn)
    requires |b| == |out| && p < |b| && Tracks(b, out)
    ensures Tracks(b[p := Up(b[p])], out[p := out[p] + multiset{c}])
  {
    WrapsAlike(|out[p]|);
    hide Up, Down;
  }

  /** Taking a connection off pool `q` and one off the counter of pool `p`. */
  lemma {:induction false} TracksDownIff(b: seq<nat>, out: seq<multiset<Conn>>, p: nat, q: nat, c: Conn)
    requires |b| == |out| && p < |b| && q < |b| && Tracks(b, out) && c in out[q]
    ensures Tracks(b[p := Down(b[p])], out[q := out[q] - multiset{c}]) <==> p == q
  {
    WrapsAlike(|out[p]|);
    if |out[p]| > 0 { WrapsAlike(|out[p]| - 1); }
    hide Up, Down;
    var b', out' := b[p := Down(b[p])], out[q := out[q] - multiset{c}];
    assert |out[q] - multiset{c}| == |out[q]| - 1;
    if p != q { assert b'[p] != |out'[p]| % U64; }
  }

  /** Nothing counts the connection down. */
  lemma {:induction false} TracksBroken(b: seq<nat>, out: seq<multiset<Conn>>, q: nat, c: Conn)
    requires |b| == |out| && q < |b| && Tracks(b, out) && c in out[q]
    ensures !Tracks(b, out[q := out[q] - multiset{c}])
  {
    var n := |out[q]| - 1;
    WrapsAlike(n);
    var out' := out[q := out[q] - multiset{c}];
    assert |out'[q]| == n && b[q] == (n + 1) % U64;
  }

  /** Every pool's counter is the number of connections it served that are out. */
  predicate Exact(l: Ledger)
    requires l.Ok()
  {
    Tracks(l.router.borrowed, l.out)
  }

  /** A connection given up in this step goes to the pool that served it. */
  predicate GoesHome(l: Ledger, e: Event)
    requires l.Ok()
  {
    GivesUp(e) && Possible(l, e) ==> Target(l.router, e) == Some(e.servedBy)
  }

  /** A step keeps the counters exact exactly when a connection it gives up goes to the pool that served
      it; a put out of range and a connection dropped without a put go nowhere. */
  lemma {:induction false} PutKeepsExactIff(l: Ledger, e: Event)
    requires l.Ok() && Exact(l)
    ensures Exact(Step(l, e)) <==> GoesHome(l, e)
  {
    hide Tracks, Up, Down, GetTarget, PutTarget, Handed, IdleAfter;
    var b, out := l.router.borrowed, l.out;
    if Possible(l, e) {
      if Gets(e) {
        TracksUp(b, out, Source(l.router, e), Handed(l.router, e));
      } else if GivesUp(e) {
        var target := Target(l.router, e);
        if target.Some? {
          TracksDownIff(b, out, target.value, e.servedBy, e.conn);
        } else {
          TracksBroken(b, out, e.servedBy, e.conn);
        }
      }
    }
  }

  /** The counters are exact after every step of the run. */
  predicate ExactThroughout(replicas: nat, h: seq<Event>) {
    Exact(Run(replicas, h)) && (h != [] ==> ExactThroughout(replicas, h[..|h| - 1]))
  }

  predicate AllGoHome(replicas: nat, h: seq<Event>) {
    forall k :: 0 <= k < |h| ==> GoesHome(Run(replicas, h[..k]), h[k])
  }

  lemma {:induction false} AllGoHomeSnoc(replicas: nat, h: seq<Event>)
    requires h != []
    ensures var front := h[..|h| - 1];
            AllGoHome(replicas, h) <==> AllGoHome(replicas, front) && GoesHome(Run(replicas, front), h[|h| - 1])
  {
    hide GoesHome, Run;
    var front := h[..|h| - 1];
    assert forall k :: 0 <= k < |front| ==> front[..k] == h[..k];
  }

  lemma {:induction false} StartIsExact(replicas: nat)
    ensures Exact(Run(replicas, []))
  {
  }

  /** A run keeps every counter exact throughout exactly when every connection given up in it goes to the
      pool that served it. */
  lemma {:induction false} RunIsExactIff(replicas: nat, h: seq<Event>)
    ensures ExactThroughout(replicas, h) <==> AllGoHome(replicas, h)
  {
    if h == [] {
      StartIsExact(replicas);
    } else {
      var front := h[..|h| - 1];
      RunIsExactIff(replicas, front);
      AllGoHomeSnoc(replicas, h);
      if ExactThroughout(replicas, front) { PutKeepsExactIff(Run(replicas, front), h[|h| - 1]); }
      hide Exact, AllGoHome, GoesHome, Step;
    }
  }

  /** A misrouted put underflows the counter it takes from exactly when no connection of that pool is out. */
  lemma {:induction false} UnderflowsIff(l: Ledger, e: Event)
    requires l.Ok() && Exact(l) && GivesUp(e) && Possible(l, e) && Target(l.router, e).Some?
    requires var p := Target(l.router, e).value; p != e.servedBy && |l.out[p]| < U64
    ensures var p := Target(l.router, e).value;
            Step(l, e).router.borrowed[p] == U64 - 1 <==> l.out[p] == multiset{}
  {
    var p := Target(l.router, e).value;
    hide PutTarget, OutAfter, IdleAfter;
    assert l.router.borrowed[p] == |l.out[p]|;
    assert Step(l, e).router.borrowed[p] == Down(l.router.borrowed[p]);
  }

  // ---------------------------------------------------------------- whose connections are idle where

  /** Every idle connection was opened to the backend of its pool. */
  predicate Native(l: Ledger) { AllNative(l.idle) }

  predicate AllNative(idle: seq<multiset<nat>>) {
    forall p, b :: 0 <= p < |idle| && b in idle[p] ==> b == p
  }

  lemma {:induction false} StoredNativeIff(idle: seq<multiset<nat>>, p: nat, b: nat)
    requires AllNative(idle) && p < |idle|
    ensures AllNative(idle[p := idle[p] + multiset{b}]) <==> b == p
  {
    var idle' := idle[p := idle[p] + multiset{b}];
    assert b in idle'[p];
  }

  lemma {:induction false} TakenStaysNative(idle: seq<multiset<nat>>, p: nat, b: nat)
    requires AllNative(idle) && p < |idle|
    ensures AllNative(idle[p := idle[p] - multiset{b}])
  {
  }

  /** And so was every connection that is out. */
  predicate Genuine(l: Ledger) {
    forall p, c :: 0 <= p < |l.out| && c in l.out[p] ==> c.backend == p
  }

  /** A connection is stored in another pool than the one that served it. */
  predicate Strays(l: Ledger, e: Event)
    requires l.Ok()
  {
    GivesUp(e) && Possible(l, e) && Keeps(l.router, e) && Target(l.router, e) != Some(e.servedBy)
  }

  lemma {:induction false} StaysGenuine(l: Ledger, e: Event)
    requires l.Ok() && Native(l) && Genuine(l)
    ensures Genuine(Step(l, e))
  {
    hide GetTarget, PutTarget, Drive, IdleAfter;
  }

  lemma {:induction false} StaysNativeIff(l: Ledger, e: Event)
    requires l.Ok() && Native(l) && Genuine(l)
    ensures Native(Step(l, e)) <==> !Strays(l, e)
  {
    hide GetTarget, PutTarget, Drive, OutAfter, Target, Source, AllNative;
    if Possible(l, e) {
      if Gets(e) {
        if e.reused.Some? { TakenStaysNative(l.idle, Source(l.router, e), e.reused.value); }
      } else if GivesUp(e) {
        if Keeps(l.router, e) { StoredNativeIff(l.idle, Target(l.router, e).value, e.conn.backend); }
      } else if e.Evict? {
        TakenStaysNative(l.idle, e.pool, e.backend);
      }
    }
  }

  predicate NativeThroughout(replicas: nat, h: seq<Event>) {
    Native(Run(replicas, h)) && (h != [] ==> NativeThroughout(replicas, h[..|h| - 1]))
  }

  predicate NoneStrays(replicas: nat, h: seq<Event>) {
    forall k :: 0 <= k < |h| ==> !Strays(Run(replicas, h[..k]), h[k])
  }

  lemma {:induction false} NoneStraysSnoc(replicas: nat, h: seq<Event>)
    requires h != []
    ensures var front := h[..|h| - 1];
            NoneStrays(replicas, h) <==> NoneStrays(replicas, front) && !Strays(Run(replicas, front), h[|h| - 1])
  {
    hide Strays, Run;
    var front := h[..|h| - 1];
    assert forall k :: 0 <= k < |front| ==> front[..k] == h[..k];
  }

  lemma {:induction false} StartIsNative(replicas: nat)
    ensures Native(Run(replicas, [])) && Genuine(Run(replicas, []))
  {
  }

  /** Every pool holds and hands out connections to its own backend only, throughout a run, exactly when
      the run stores no connection in another pool than the one that served it. */
  lemma {:induction false} RunIsNativeIff(replicas: nat, h: seq<Event>)
    ensures NativeThroughout(replicas, h) <==> NoneStrays(replicas, h)
    ensures NativeThroughout(replicas, h) ==> Genuine(Run(replicas, h))
  {
    if h == [] {
      StartIsNative(replicas);
    } else {
      var front := h[..|h| - 1];
      RunIsNativeIff(replicas, front);
      NoneStraysSnoc(replicas, h);
      if NativeThroughout(replicas, front) {
        StaysNativeIff(Run(replicas, front), h[|h| - 1]);
        StaysGenuine(Run(replicas, front), h[|h| - 1]);
      }
      hide Native, Genuine, NoneStrays, Strays, Step;
    }
  }

  // ---------------------------------------------------------------- quiet runs

  predicate NoPrimaryOut(l: Ledger) { forall p, c :: 0 <= p < |l.out| && c in l.out[p] ==> !c.primary }

  /** Primary connections are out of the pool that puts go to, and of no other. */
  predicate PrimariesAtTarget(l: Ledger)
    requires l.Ok()
  {
    forall p, c :: 0 <= p < |l.out| && c in l.out[p] && c.primary ==> p == PutTarget(l.router)
  }

  /** No group-replication primary is ever set, the failover index moves only while no primary connection
      is out, primary connections are put back as such and replica connections by the index their get
      returned, and none is dropped without a put. */
  predicate Quiet(replicas: nat, h: seq<Event>) {
    h == [] ||
    (Quiet(replicas, h[..|h| - 1]) &&
     match h[|h| - 1]
     case SetGrPrimary(i) => i < 0
     case SetFailover(_) => NoPrimaryOut(Run(replicas, h[..|h| - 1]))
     case PutPrimary(_, c, _) => c.primary
     case PutReplica(i, p, _, _) => i < replicas && p == i + 1
     case Abandon(_, _) => false
     case _ => true)
  }

  lemma {:induction false} QuietStep(l: Ledger, e: Event)
    requires l.Ok() && PrimariesAtTarget(l) && l.router.grPrimaryIdx < 0
    requires e.SetGrPrimary? ==> e.primary < 0
    requires e.SetFailover? ==> NoPrimaryOut(l)
    requires e.PutPrimary? ==> e.conn.primary
    ensures Step(l, e).router.grPrimaryIdx < 0 && PrimariesAtTarget(Step(l, e))
  {
    hide IdleAfter, Up, Down;
  }

  /** In a quiet run every pool's counter is exact and every connection is to its pool's backend. */
  lemma {:induction false} QuietRunsAreExact(replicas: nat, h: seq<Event>)
    requires Quiet(replicas, h)
    ensures var l := Run(replicas, h);
            Exact(l) && Native(l) && Genuine(l) && PrimariesAtTarget(l) && l.router.grPrimaryIdx < 0
  {
    if h == [] {
      StartIsExact(replicas);
      StartIsNative(replicas);
    } else {
      var l, e := Run(replicas, h[..|h| - 1]), h[|h| - 1];
      QuietRunsAreExact(replicas, h[..|h| - 1]);
      QuietStep(l, e);
      assert GoesHome(l, e);
      hide Exact, Native, Genuine, PrimariesAtTarget, NoPrimaryOut, Step, Possible, PutTarget;
      PutKeepsExactIff(l, e);
      StaysNativeIff(l, e);
      StaysGenuine(l, e);
    }
  }

  // ---------------------------------------------------------------- runs that go wrong

  const NEW_PRIMARY := GetPrimary(None)

  lemma {:induction false} RunNothing(replicas: nat, h: seq<Event>)
    ensures var l := Run(replicas, h[..0]);
            && l.router == Start(replicas)
            && forall p :: 0 <= p <= replicas ==> l.out[p] == multiset{} && l.idle[p] == multiset{}
  {
  }

  /** A connection taken from the group-replication primary, replica 0, and put back. */
  function Misrouted(): seq<Event> {
    [SetGrPrimary(0), NEW_PRIMARY, PutPrimary(1, Conn(1, true), true), SetGrPrimary(-1), GetPrimary(Some(1))]
  }

  lemma {:induction false} MisroutedStates(replicas: nat)
    requires replicas >= 1
    ensures var h := Misrouted();
            var l2, l3 := Run(replicas, h[..2]), Run(replicas, h[..3]);
            && l2.router.grPrimaryIdx == 0 && l2.router.failoverIdx == -1
            && l2.router.borrowed[0] == 0 && l2.router.borrowed[1] == 1 && l2.out[1] == multiset{Conn(1, true)}
            && l3.router.borrowed[0] == U64 - 1 && l3.router.borrowed[1] == 1 && l3.out[0] == multiset{}
            && 1 in l3.idle[0] && l3.router.failoverIdx == -1
  {
    hide Run;
    var h := Misrouted();
    RunNothing(replicas, h);
    RunPrefix(replicas, h, 0);
    RunPrefix(replicas, h, 1);
    var l1, l2 := Run(replicas, h[..1]), Run(replicas, h[..2]);
    assert GetTarget(l1.router) == 1 && l1.out[1] == multiset{} && l1.out[0] == multiset{};
    assert l2.out[0] == multiset{};
    RunPrefix(replicas, h, 2);
  }

  /** Putting it back underflows the configured primary's counter, which then reads as the largest 64-bit
      number, and stores the replica's connection among the primary's. */
  lemma {:induction false} MisroutedPutUnderflows(replicas: nat)
    requires replicas >= 1
    ensures var l := Run(replicas, Misrouted()[..3]);
            l.router.borrowed[0] == U64 - 1 && l.router.borrowed[1] == 1 && !Exact(l) && !Native(l)
  {
    hide Run;
    MisroutedStates(replicas);
    var l := Run(replicas, Misrouted()[..3]);
    assert l.router.borrowed[0] != |l.out[0]| % U64;
  }

  /** Once the group-replication primary is gone, the configured primary's pool hands out that connection
      to the replica. */
  lemma {:induction false} PrimaryHandsOutReplica(replicas: nat)
    requires replicas >= 1
    ensures var l := Run(replicas, Misrouted()); Conn(1, true) in l.out[0] && !Genuine(l)
  {
    hide Run;
    var h := Misrouted();
    MisroutedStates(replicas);
    RunPrefix(replicas, h, 3);
    var l4 := Run(replicas, h[..4]);
    assert GetTarget(l4.router) == 0 && 1 in l4.idle[0];
    RunPrefix(replicas, h, 4);
    assert h[..5] == h;
  }

  /** A misrouted put need not underflow: with a connection of the primary out as well, the two counters
      are merely exchanged. */
  function Exchanged(): seq<Event> {
    [NEW_PRIMARY, SetGrPrimary(0), NEW_PRIMARY, PutPrimary(1, Conn(1, true), true)]
  }

  lemma {:induction false} ExchangedStates(replicas: nat)
    requires replicas >= 1
    ensures var l := Run(replicas, Exchanged()[..3]);
            && l.router.failoverIdx == -1 && l.router.borrowed[0] == 1 && l.router.borrowed[1] == 1
            && l.out[0] == multiset{Conn(0, true)} && l.out[1] == multiset{Conn(1, true)}
  {
    hide Run;
    var h := Exchanged();
    RunNothing(replicas, h);
    RunPrefix(replicas, h, 0);
    var l1 := Run(replicas, h[..1]);
    assert l1.out[0] == multiset{Conn(0, true)} && l1.router.borrowed[0] == 1;
    assert l1.out[1] == multiset{} && l1.router.borrowed[1] == 0 && l1.router.failoverIdx == -1;
    RunPrefix(replicas, h, 1);
    var l2 := Run(replicas, h[..2]);
    assert l2 == l1.(router := l1.router.(grPrimaryIdx := 0));
    RunPrefix(replicas, h, 2);
  }

  lemma {:induction false} MisroutedPutExchanges(replicas: nat)
    requires replicas >= 1
    ensures var l := Run(replicas, Exchanged());
            && l.router.borrowed[0] == 0 && l.out[0] == multiset{Conn(0, true)}
            && l.router.borrowed[1] == 1 && l.out[1] == multiset{} && !Exact(l)
  {
    hide Run;
    var h := Exchanged();
    ExchangedStates(replicas);
    RunPrefix(replicas, h, 3);
    assert h[..4] == h;
    var l := Run(replicas, h);
    assert l.router.borrowed[0] != |l.out[0]| % U64;
  }

  /** A read that fell back to the primary and is put back by its index, which is out of range, leaves the
      primary's counter up for good. */
  lemma {:induction false} OutOfRangePutLeaks(replicas: nat, idx: nat)
    requires idx >= replicas
    ensures var l := Run(replicas, [NEW_PRIMARY, PutReplica(idx, 0, Conn(0, true), true)]);
            l.router.borrowed[0] == 1 && l.out[0] == multiset{} && !Exact(l)
  {
    hide Run;
    var h := [NEW_PRIMARY, PutReplica(idx, 0, Conn(0, true), true)];
    RunNothing(replicas, h);
    RunPrefix(replicas, h, 0);
    var l1 := Run(replicas, h[..1]);
    assert l1.out[0] == multiset{Conn(0, true)} && l1.router.borrowed[0] == 1;
    RunPrefix(replicas, h, 1);
    assert h[..2] == h;
    var l := Run(replicas, h);
    assert l.router.borrowed[0] != |l.out[0]| % U64;
  }
}
