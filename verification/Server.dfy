/** internal/tunnel/server/server.go: admission and teardown of connections.

    Every handleConn goroutine is a handler with a phase. One event is one
    locked operation of one handler (or a timer, or shutdown), so a run is an
    arbitrary interleaving of any number of handlers. */
module Server {
  import opened Base
  import opened IpAlloc
  import opened Sessions
  import L = Limiter

  type Handler = nat

  /** Where a handler stands in handleConn. */
  datatype Phase =
    | Accepted(remote: string)             // before limiter.acquire
    | Handshaking                          // slot held, TLS handshake running
    | Identified(cn: string)               // name read from the certificate
    | Kicking(cn: string, prev: Handler)   // registry.ByCN returned prev
    | Joining(cn: string, prev: Handler)   // prev closed, waiting for its Done
    | Admitting(cn: string)                // about to call pool.Allocate
    | Holding(cn: string, ip: IPv4)        // address allocated, not yet registered
    | Serving(cn: string, ip: IPv4)        // registered
    | Unlisted(cn: string, ip: IPv4)       // registry.Remove has run
    | Unleased(cn: string, ip: IPv4)       // pool.Release has run
    | Leaving(handshakeOK: bool)           // only the limiter release is left
    | Gone

  datatype State = State(
    pool: PoolState,
    index: Index<Handler>,
    lim: L.Timed,
    phases: map<Handler, Phase>,
    closed: set<Handler>,   // sessions whose close() has run
    done: set<Handler>)     // sessions whose doneCh is closed

  datatype Event =
    | Accept(h: Handler, remote: string)
    | Acquire(h: Handler)
    | FailHandshake(h: Handler)
    | NoName(h: Handler)                   // no certificate, or an empty name
    | Identify(h: Handler, cn: string)
    | Lookup(h: Handler)
    | Kick(h: Handler)
    | Joined(h: Handler)                   // prev.Done() returned
    | JoinTimeout(h: Handler)              // "admitting anyway"
    | Allocate(h: Handler)
    | Register(h: Handler)
    | Unregister(h: Handler)
    | Unlease(h: Handler)
    | CloseDone(h: Handler)
    | ReleaseSlot(h: Handler, shuttingDown: bool)
    | Fire(i: nat)
    | Tick(d: nat)
    | Shutdown

  /** The phases in which the handler's limiter slot is held. */
  predicate HoldsSlot(p: Phase) {
    !p.Accepted? && !p.Gone?
  }

  /** Between a successful Allocate and its Release. */
  predicate HoldsAddress(p: Phase) {
    p.Holding? || p.Serving? || p.Unlisted?
  }

  predicate HasSession(p: Phase) {
    HoldsAddress(p) || p.Unleased?
  }

  predicate Enabled(caps: L.Caps, s: State, e: Event) {
    match e
    case Accept(h, remote) => h !in s.phases && h !in s.lim.live
    case Acquire(h) => h in s.phases && s.phases[h].Accepted? && h !in s.lim.live
    case FailHandshake(h) => h in s.phases && s.phases[h].Handshaking?
    case NoName(h) => h in s.phases && s.phases[h].Handshaking?
    case Identify(h, cn) => h in s.phases && s.phases[h].Handshaking? && cn != ""
    case Lookup(h) => h in s.phases && s.phases[h].Identified?
    case Kick(h) => h in s.phases && s.phases[h].Kicking?
    case Joined(h) => h in s.phases && s.phases[h].Joining? && s.phases[h].prev in s.done
    case JoinTimeout(h) => h in s.phases && s.phases[h].Joining?
    case Allocate(h) => h in s.phases && s.phases[h].Admitting?
    case Register(h) => h in s.phases && s.phases[h].Holding?
    case Unregister(h) => h in s.phases && s.phases[h].Serving?
    case Unlease(h) => h in s.phases && s.phases[h].Unlisted?
    case CloseDone(h) => h in s.phases && s.phases[h].Unleased?
    case ReleaseSlot(h, shuttingDown) => h in s.phases && s.phases[h].Leaving? && h in s.lim.live
    case Fire(i) => L.Enabled(caps, s.lim, L.Fire(i))
    case Tick(d) => true
    case Shutdown => true
  }

  function Move(s: State, h: Handler, p: Phase): State {
    s.(phases := s.phases[h := p])
  }

  function Step(caps: L.Caps, s: State, e: Event): State
    requires Enabled(caps, s, e)
  {
    match e
    case Accept(h, remote) => Move(s, h, Accepted(remote))
    case Acquire(h) =>
      var remote := s.phases[h].remote;
      var lim := L.Step(caps, s.lim, L.Acquire(h, remote));
      Move(s, h, if L.Admits(caps, s.lim.c, remote) then Handshaking else Gone).(lim := lim)
    case FailHandshake(h) => Move(s, h, Leaving(false))
    case NoName(h) => Move(s, h, Leaving(true))
    case Identify(h, cn) => Move(s, h, Identified(cn))
    case Lookup(h) =>
      var cn := s.phases[h].cn;
      Move(s, h, if cn in s.index.byCN then Kicking(cn, s.index.byCN[cn]) else Admitting(cn))
    case Kick(h) =>
      var Kicking(cn, prev) := s.phases[h];
      Move(s, h, Joining(cn, prev)).(closed := s.closed + {prev})
    case Joined(h) => Move(s, h, Admitting(s.phases[h].cn))
    case JoinTimeout(h) => Move(s, h, Admitting(s.phases[h].cn))
    case Allocate(h) =>
      var cn := s.phases[h].cn;
      var (pool, grant) := Allocated(s.pool, cn);
      Move(s, h, if grant.Granted? then Holding(cn, grant.ip) else Leaving(true)).(pool := pool)
    case Register(h) =>
      var Holding(cn, ip) := s.phases[h];
      Move(s, h, Serving(cn, ip)).(index := Added(s.index, h, cn, ip))
    case Unregister(h) =>
      var Serving(cn, ip) := s.phases[h];
      Move(s, h, Unlisted(cn, ip)).(index := Removed(s.index, h, cn, ip))
    case Unlease(h) =>
      var Unlisted(cn, ip) := s.phases[h];
      Move(s, h, Unleased(cn, ip)).(pool := Released(s.pool, cn))
    case CloseDone(h) => Move(s, h, Leaving(true)).(done := s.done + {h})
    case ReleaseSlot(h, shuttingDown) =>
      var penalize := !s.phases[h].handshakeOK && !shuttingDown;
      Move(s, h, Gone).(lim := L.Step(caps, s.lim, L.Release(h, penalize)))
    case Fire(i) => s.(lim := L.Step(caps, s.lim, L.Fire(i)))
    case Tick(d) => s.(lim := L.Step(caps, s.lim, L.Tick(d)))
    case Shutdown => s.(closed := s.closed + s.index.byCN.Values)
  }

  predicate Runs(caps: L.Caps, s: State, es: seq<Event>)
    decreases |es|
  {
    es == [] || (Enabled(caps, s, es[0]) && Runs(caps, Step(caps, s, es[0]), es[1..]))
  }

  function Run(caps: L.Caps, s: State, es: seq<Event>): State
    requires Runs(caps, s, es)
    decreases |es|
  {
    if es == [] then s else Run(caps, Step(caps, s, es[0]), es[1..])
  }

  function Start(addrs: seq<IPv4>, now: int): State {
    State(PoolState(addrs, set a | a in addrs, map[]), Index(map[], map[]), L.Init(now), map[], {}, {})
  }

  // ----------------------------------------------------------- invariant

  type Phases = map<Handler, Phase>

  ghost predicate HoldsFor(ps: Phases, h: Handler, cn: string) {
    h in ps && HoldsAddress(ps[h]) && ps[h].cn == cn
  }

  /** A handler holding an address is the pool's holder for its name, no two
      handlers hold for the same name, and nobody else holds anything. */
  ghost predicate LeasesMatch(ps: Phases, pool: PoolState) {
    && (forall h :: h in ps && HoldsAddress(ps[h]) ==>
          ps[h].cn in pool.byClient && pool.byClient[ps[h].cn] == ps[h].ip)
    && (forall g, h, c :: HoldsFor(ps, g, c) && HoldsFor(ps, h, c) ==> g == h)
    && (forall c :: c in pool.byClient ==> exists h :: HoldsFor(ps, h, c))
  }

  /** The registry holds exactly the serving handlers, under their own keys. */
  ghost predicate IndexMatches(ps: Phases, x: Index<Handler>) {
    && (forall c :: c in x.byCN ==> x.byCN[c] in ps && ps[x.byCN[c]].Serving? && ps[x.byCN[c]].cn == c)
    && (forall a :: a in x.byIPv4 ==> x.byIPv4[a] in ps && ps[x.byIPv4[a]].Serving? && ps[x.byIPv4[a]].ip == a)
    && (forall h :: h in ps && ps[h].Serving? ==>
          && ps[h].cn in x.byCN && x.byCN[ps[h].cn] == h
          && ps[h].ip in x.byIPv4 && x.byIPv4[ps[h].ip] == h)
  }

  predicate Waiting(p: Phase) {
    p.Joining? || p.Kicking?
  }

  /** The session waited for is torn down, or still on its way there under the
      same name; once joining, its close() has been called. */
  ghost predicate WaitIsSound(ps: Phases, closed: set<Handler>, done: set<Handler>, p: Phase)
    requires Waiting(p)
  {
    && p.prev in ps
    && (p.prev in done || (HasSession(ps[p.prev]) && ps[p.prev].cn == p.cn))
    && (p.Joining? ==> p.prev in closed)
  }

  /** doneCh is closed only by a handler past its whole teardown. */
  ghost predicate DoneMatches(ps: Phases, closed: set<Handler>, done: set<Handler>) {
    && (forall h :: h in done ==> h in ps && (ps[h].Leaving? || ps[h].Gone?))
    && (forall h :: h in ps && Waiting(ps[h]) ==> WaitIsSound(ps, closed, done, ps[h]))
  }

  ghost predicate Core(s: State) {
    && Partitioned(s.pool) && LeasesMatch(s.phases, s.pool)
    && IndexMatches(s.phases, s.index) && DoneMatches(s.phases, s.closed, s.done)
  }

  /** A handler is a live connection of the limiter exactly while it holds a slot. */
  ghost predicate SlotsMatch(s: State) {
    forall h :: h in s.lim.live <==> h in s.phases && HoldsSlot(s.phases[h])
  }

  ghost predicate Inv(caps: L.Caps, s: State) {
    Core(s) && SlotsMatch(s) && L.Inv(caps, s.lim)
  }

  lemma StartHolds(caps: L.Caps, addrs: seq<IPv4>, now: int)
    requires Ascending(addrs)
    ensures Inv(caps, Start(addrs, now))
  {
    L.InitHolds(caps, now);
  }

  /** A move that neither gains nor loses a lease. */
  lemma LeasesKept(ps: Phases, pool: PoolState, h: Handler, p: Phase)
    requires LeasesMatch(ps, pool)
    requires HoldsAddress(p) <==> h in ps && HoldsAddress(ps[h])
    requires HoldsAddress(p) ==> p.cn == ps[h].cn && p.ip == ps[h].ip
    ensures LeasesMatch(ps[h := p], pool)
  {
    var ps' := ps[h := p];
    forall g, c ensures HoldsFor(ps', g, c) <==> HoldsFor(ps, g, c) {}
  }

  lemma LeaseAdded(ps: Phases, pool: PoolState, pool': PoolState, h: Handler, cn: string, ip: IPv4)
    requires LeasesMatch(ps, pool) && h in ps && !HoldsAddress(ps[h])
    requires cn !in pool.byClient && pool'.byClient == pool.byClient[cn := ip]
    ensures LeasesMatch(ps[h := Holding(cn, ip)], pool')
  {
    var ps' := ps[h := Holding(cn, ip)];
    forall k, c ensures HoldsFor(ps', k, c) <==> HoldsFor(ps, k, c) || (k == h && c == cn) {}
    forall c | c in pool'.byClient ensures exists k :: HoldsFor(ps', k, c) {
      if c == cn {
        assert HoldsFor(ps', h, c);
      } else {
        var k :| HoldsFor(ps, k, c);
        assert HoldsFor(ps', k, c);
      }
    }
  }

  lemma LeaseGained(ps: Phases, pool: PoolState, h: Handler, cn: string)
    requires Partitioned(pool) && LeasesMatch(ps, pool)
    requires h in ps && !HoldsAddress(ps[h])
    requires Allocated(pool, cn).1.Granted?
    ensures var (pool', g) := Allocated(pool, cn);
      Partitioned(pool') && LeasesMatch(ps[h := Holding(cn, g.ip)], pool')
  {
    AllocateMeaning(pool, cn);
    var (pool', g) := Allocated(pool, cn);
    LeaseAdded(ps, pool, pool', h, cn, g.ip);
  }

  lemma LeaseLost(ps: Phases, pool: PoolState, h: Handler)
    requires Partitioned(pool) && LeasesMatch(ps, pool)
    requires h in ps && ps[h].Unlisted?
    ensures Partitioned(Released(pool, ps[h].cn))
    ensures LeasesMatch(ps[h := Unleased(ps[h].cn, ps[h].ip)], Released(pool, ps[h].cn))
  {
    var cn := ps[h].cn;
    ReleaseMeaning(pool, cn);
    var ps' := ps[h := Unleased(cn, ps[h].ip)];
    assert HoldsFor(ps, h, cn);
    forall k, c ensures HoldsFor(ps', k, c) <==> HoldsFor(ps, k, c) && k != h {}
    forall g | g in ps && HoldsAddress(ps[g]) && g != h ensures ps[g].cn != cn {
      assert HoldsFor(ps, g, ps[g].cn);
    }
    forall c | c in pool.byClient && c != cn ensures exists k :: HoldsFor(ps', k, c) {
      var k :| HoldsFor(ps, k, c);
      assert HoldsFor(ps', k, c);
    }
  }

  lemma IndexKept(ps: Phases, x: Index<Handler>, h: Handler, p: Phase)
    requires IndexMatches(ps, x)
    requires !p.Serving? && (h in ps ==> !ps[h].Serving?)
    ensures IndexMatches(ps[h := p], x)
  {
  }

  lemma IndexGained(ps: Phases, pool: PoolState, x: Index<Handler>, h: Handler)
    requires Partitioned(pool) && LeasesMatch(ps, pool) && IndexMatches(ps, x)
    requires h in ps && ps[h].Holding?
    ensures ps[h].cn !in x.byCN && ps[h].ip !in x.byIPv4
    ensures IndexMatches(ps[h := Serving(ps[h].cn, ps[h].ip)], Added(x, h, ps[h].cn, ps[h].ip))
  {
    assert HoldsFor(ps, h, ps[h].cn);
    forall g | g in ps && ps[g].Serving?
      ensures ps[g].cn != ps[h].cn && ps[g].ip != ps[h].ip
    {
      assert HoldsFor(ps, g, ps[g].cn);
    }
  }

  /** Remove's "still the same session" guard always passes. */
  lemma IndexLost(ps: Phases, x: Index<Handler>, h: Handler)
    requires IndexMatches(ps, x) && h in ps && ps[h].Serving?
    ensures Removed(x, h, ps[h].cn, ps[h].ip) == Index(x.byCN - {ps[h].cn}, x.byIPv4 - {ps[h].ip})
    ensures IndexMatches(ps[h := Unlisted(ps[h].cn, ps[h].ip)], Removed(x, h, ps[h].cn, ps[h].ip))
  {
  }

  /** A handler whose session is being waited for keeps its name until done. */
  lemma DoneKept(ps: Phases, closed: set<Handler>, done: set<Handler>,
                 h: Handler, p: Phase, closed': set<Handler>, done': set<Handler>)
    requires DoneMatches(ps, closed, done)
    requires closed <= closed' && done <= done' <= done + {h}
    requires h in done' ==> p.Leaving? || p.Gone?
    requires h in ps && HasSession(ps[h]) && h !in done' ==> HasSession(p) && p.cn == ps[h].cn
    requires Waiting(p) ==> WaitIsSound(ps[h := p], closed', done', p)
    ensures DoneMatches(ps[h := p], closed', done')
  {
    var ps' := ps[h := p];
    forall g | g in ps' && Waiting(ps'[g])
      ensures WaitIsSound(ps', closed', done', ps'[g])
    {
      if g != h {
        assert WaitIsSound(ps, closed, done, ps[g]);
      }
    }
  }

  lemma AllocateKeeps(caps: L.Caps, s: State, h: Handler)
    requires Core(s) && Enabled(caps, s, Allocate(h))
    ensures Core(Step(caps, s, Allocate(h)))
  {
    var p := Step(caps, s, Allocate(h)).phases[h];
    AllocateMeaning(s.pool, s.phases[h].cn);
    if p.Holding? {
      LeaseGained(s.phases, s.pool, h, s.phases[h].cn);
    } else {
      LeasesKept(s.phases, s.pool, h, p);
    }
    IndexKept(s.phases, s.index, h, p);
    DoneKept(s.phases, s.closed, s.done, h, p, s.closed, s.done);
  }

  lemma RegisterKeeps(caps: L.Caps, s: State, h: Handler)
    requires Core(s) && Enabled(caps, s, Register(h))
    ensures Core(Step(caps, s, Register(h)))
  {
    var p := Step(caps, s, Register(h)).phases[h];
    LeasesKept(s.phases, s.pool, h, p);
    IndexGained(s.phases, s.pool, s.index, h);
    DoneKept(s.phases, s.closed, s.done, h, p, s.closed, s.done);
  }

  lemma UnregisterKeeps(caps: L.Caps, s: State, h: Handler)
    requires Core(s) && Enabled(caps, s, Unregister(h))
    ensures Core(Step(caps, s, Unregister(h)))
  {
    var p := Step(caps, s, Unregister(h)).phases[h];
    LeasesKept(s.phases, s.pool, h, p);
    IndexLost(s.phases, s.index, h);
    DoneKept(s.phases, s.closed, s.done, h, p, s.closed, s.done);
  }

  lemma UnleaseKeeps(caps: L.Caps, s: State, h: Handler)
    requires Core(s) && Enabled(caps, s, Unlease(h))
    ensures Core(Step(caps, s, Unlease(h)))
  {
    var p := Step(caps, s, Unlease(h)).phases[h];
    LeaseLost(s.phases, s.pool, h);
    IndexKept(s.phases, s.index, h, p);
    DoneKept(s.phases, s.closed, s.done, h, p, s.closed, s.done);
  }

  /** Every other move: no lease and no registry entry before or after. */
  lemma PlainKeeps(s: State, h: Handler, p: Phase, closed: set<Handler>, done: set<Handler>, lim: L.Timed)
    requires Core(s) && !HoldsAddress(p) && (h in s.phases ==> !HoldsAddress(s.phases[h]))
    requires s.closed <= closed && s.done <= done <= s.done + {h}
    requires h in done ==> p.Leaving? || p.Gone?
    requires h in s.phases && HasSession(s.phases[h]) ==> h in done
    requires Waiting(p) ==> WaitIsSound(s.phases[h := p], closed, done, p)
    ensures Core(Move(s, h, p).(closed := closed, done := done, lim := lim))
  {
    LeasesKept(s.phases, s.pool, h, p);
    IndexKept(s.phases, s.index, h, p);
    DoneKept(s.phases, s.closed, s.done, h, p, closed, done);
  }

  lemma ClosingMoreIsSound(ps: Phases, closed: set<Handler>, done: set<Handler>, more: set<Handler>)
    requires DoneMatches(ps, closed, done)
    ensures DoneMatches(ps, closed + more, done)
  {
    forall h | h in ps && Waiting(ps[h]) ensures WaitIsSound(ps, closed + more, done, ps[h]) {
      assert WaitIsSound(ps, closed, done, ps[h]);
    }
  }

  lemma LookupKeeps(caps: L.Caps, s: State, h: Handler)
    requires Core(s) && Enabled(caps, s, Lookup(h))
    ensures Core(Step(caps, s, Lookup(h)))
  {
    PlainKeeps(s, h, Step(caps, s, Lookup(h)).phases[h], s.closed, s.done, s.lim);
  }

  lemma KickKeeps(caps: L.Caps, s: State, h: Handler)
    requires Core(s) && Enabled(caps, s, Kick(h))
    ensures Core(Step(caps, s, Kick(h)))
  {
    var Kicking(cn, prev) := s.phases[h];
    assert WaitIsSound(s.phases, s.closed, s.done, s.phases[h]);
    PlainKeeps(s, h, Joining(cn, prev), s.closed + {prev}, s.done, s.lim);
  }

  /** The steps of one handler that touch neither pool nor registry. */
  predicate Plain(e: Event) {
    || e.Accept? || e.Acquire? || e.FailHandshake? || e.NoName? || e.Identify?
    || e.Joined? || e.JoinTimeout? || e.CloseDone? || e.ReleaseSlot?
  }

  lemma PlainStepKeeps(caps: L.Caps, s: State, e: Event)
    requires Core(s) && Enabled(caps, s, e) && Plain(e)
    ensures Core(Step(caps, s, e))
  {
    var s' := Step(caps, s, e);
    PlainKeeps(s, e.h, s'.phases[e.h], s'.closed, s'.done, s'.lim);
  }

  lemma ShutdownKeeps(caps: L.Caps, s: State)
    requires Core(s)
    ensures Core(Step(caps, s, Shutdown))
  {
    ClosingMoreIsSound(s.phases, s.closed, s.done, s.index.byCN.Values);
  }

  lemma TimerKeeps(caps: L.Caps, s: State, e: Event)
    requires Core(s) && Enabled(caps, s, e) && (e.Fire? || e.Tick?)
    ensures Core(Step(caps, s, e))
  {
  }

  lemma CoreStep(caps: L.Caps, s: State, e: Event)
    requires Core(s) && Enabled(caps, s, e)
    ensures Core(Step(caps, s, e))
  {
    if Plain(e) {
      PlainStepKeeps(caps, s, e);
    } else {
      match e
      case Lookup(h) => LookupKeeps(caps, s, h);
      case Kick(h) => KickKeeps(caps, s, h);
      case Allocate(h) => AllocateKeeps(caps, s, h);
      case Register(h) => RegisterKeeps(caps, s, h);
      case Unregister(h) => UnregisterKeeps(caps, s, h);
      case Unlease(h) => UnleaseKeeps(caps, s, h);
      case Shutdown => ShutdownKeeps(caps, s);
      case _ => TimerKeeps(caps, s, e);
    }
  }

  /** The limiter's own steps as this machine takes them. */
  function LimiterEvent(s: State, e: Event): Option<L.Event> {
    match e
    case Acquire(h) => if h in s.phases && s.phases[h].Accepted? then Some(L.Acquire(h, s.phases[h].remote)) else None
    case ReleaseSlot(h, shuttingDown) =>
      if h in s.phases && s.phases[h].Leaving? then
        Some(L.Release(h, !s.phases[h].handshakeOK && !shuttingDown))
      else None
    case Fire(i) => Some(L.Fire(i))
    case Tick(d) => Some(L.Tick(d))
    case _ => None
  }

  lemma LimiterStep(caps: L.Caps, s: State, e: Event)
    requires Enabled(caps, s, e)
    ensures match LimiterEvent(s, e)
      case None => Step(caps, s, e).lim == s.lim
      case Some(le) => L.Enabled(caps, s.lim, le) && Step(caps, s, e).lim == L.Step(caps, s.lim, le)
  {
  }

  lemma SlotStep(caps: L.Caps, s: State, e: Event)
    requires SlotsMatch(s) && Enabled(caps, s, e)
    ensures SlotsMatch(Step(caps, s, e))
  {
  }

  lemma StepKeeps(caps: L.Caps, s: State, e: Event)
    requires Inv(caps, s) && Enabled(caps, s, e)
    ensures Inv(caps, Step(caps, s, e))
  {
    CoreStep(caps, s, e);
    SlotStep(caps, s, e);
    LimiterStep(caps, s, e);
    var le := LimiterEvent(s, e);
    if le.Some? {
      L.StepKeeps(caps, s.lim, le.value);
    }
  }

  lemma {:induction false} RunKeeps(caps: L.Caps, s: State, es: seq<Event>)
    requires Inv(caps, s) && Runs(caps, s, es)
    ensures Inv(caps, Run(caps, s, es))
    decreases |es|
  {
    if es != [] {
      StepKeeps(caps, s, es[0]);
      RunKeeps(caps, Step(caps, s, es[0]), es[1..]);
    }
  }

  // -------------------------------------------------------------- results

  predicate Registered(s: State, h: Handler) {
    h in s.phases && s.phases[h].Serving?
  }

  lemma OneLeasePerName(s: State)
    requires Core(s)
    ensures forall g, h ::
      (g in s.phases && h in s.phases && HoldsAddress(s.phases[g]) && HoldsAddress(s.phases[h])
       && s.phases[g].cn == s.phases[h].cn) ==> g == h
  {
    forall g, h |
      && g in s.phases && h in s.phases && HoldsAddress(s.phases[g]) && HoldsAddress(s.phases[h])
      && s.phases[g].cn == s.phases[h].cn
      ensures g == h
    {
      assert HoldsFor(s.phases, g, s.phases[g].cn) && HoldsFor(s.phases, h, s.phases[g].cn);
    }
  }

  lemma IndexesExact(s: State)
    requires Core(s)
    ensures forall c, h :: c in s.index.byCN && s.index.byCN[c] == h <==> Registered(s, h) && s.phases[h].cn == c
    ensures forall a, h :: a in s.index.byIPv4 && s.index.byIPv4[a] == h <==> Registered(s, h) && s.phases[h].ip == a
    ensures forall g, h ::
      (Registered(s, g) && Registered(s, h)
       && (s.phases[g].cn == s.phases[h].cn || s.phases[g].ip == s.phases[h].ip)) ==> g == h
  {
  }

  /** In every reachable state, whatever the interleaving and however many waits
      timed out: at most one handler per name is between a successful Allocate
      and its Release; the two indexes hold a session exactly while it is between
      Add and Remove; and no two registered sessions share a name or an address. */
  lemma MutualExclusion(caps: L.Caps, addrs: seq<IPv4>, now: int, es: seq<Event>)
    requires Ascending(addrs) && Runs(caps, Start(addrs, now), es)
    ensures var s := Run(caps, Start(addrs, now), es);
      && (forall g, h ::
            (g in s.phases && h in s.phases && HoldsAddress(s.phases[g]) && HoldsAddress(s.phases[h])
             && s.phases[g].cn == s.phases[h].cn) ==> g == h)
      && (forall c, h :: c in s.index.byCN && s.index.byCN[c] == h <==> Registered(s, h) && s.phases[h].cn == c)
      && (forall a, h :: a in s.index.byIPv4 && s.index.byIPv4[a] == h <==> Registered(s, h) && s.phases[h].ip == a)
      && (forall g, h ::
            (Registered(s, g) && Registered(s, h)
             && (s.phases[g].cn == s.phases[h].cn || s.phases[g].ip == s.phases[h].ip)) ==> g == h)
  {
    StartHolds(caps, addrs, now);
    RunKeeps(caps, Start(addrs, now), es);
    OneLeasePerName(Run(caps, Start(addrs, now), es));
    IndexesExact(Run(caps, Start(addrs, now), es));
  }

  /** When the wait on a kicked session's Done returns, both of its index entries
      are gone and it holds no address: whatever is still leased under the name
      belongs to another handler. */
  lemma DoneMeansGone(caps: L.Caps, addrs: seq<IPv4>, now: int, es: seq<Event>, h: Handler)
    requires Ascending(addrs) && Runs(caps, Start(addrs, now), es)
    requires Enabled(caps, Run(caps, Start(addrs, now), es), Joined(h))
    ensures var s := Run(caps, Start(addrs, now), es);
      var prev := s.phases[h].prev;
      && prev !in s.index.byCN.Values && prev !in s.index.byIPv4.Values
      && prev in s.phases && !HasSession(s.phases[prev])
      && (s.phases[h].cn in s.pool.byClient ==>
            exists g :: g != prev && HoldsFor(s.phases, g, s.phases[h].cn))
  {
    StartHolds(caps, addrs, now);
    RunKeeps(caps, Start(addrs, now), es);
    var s := Run(caps, Start(addrs, now), es);
    var cn := s.phases[h].cn;
    if cn in s.pool.byClient {
      var g :| HoldsFor(s.phases, g, cn);
      assert g != s.phases[h].prev;
    }
  }

  /** Admitting anyway after a timed-out wait is harmless: for as long as anyone
      (the kicked session included) holds an address for the name, the pool
      refuses it, and the refused connection changes neither pool nor registry. */
  lemma AdmittingAnywayIsSafe(caps: L.Caps, addrs: seq<IPv4>, now: int, es: seq<Event>, h: Handler, g: Handler)
    requires Ascending(addrs) && Runs(caps, Start(addrs, now), es)
    requires Enabled(caps, Run(caps, Start(addrs, now), es), Allocate(h))
    requires var s := Run(caps, Start(addrs, now), es); HoldsFor(s.phases, g, s.phases[h].cn)
    ensures var s := Run(caps, Start(addrs, now), es);
      var s' := Step(caps, s, Allocate(h));
      && s'.phases[h] == Leaving(true) && s'.pool == s.pool && s'.index == s.index
      && s'.phases[g] == s.phases[g]
  {
    StartHolds(caps, addrs, now);
    RunKeeps(caps, Start(addrs, now), es);
  }

  /** The registry's guard against removing a replacement never has to act:
      Remove always finds its own session and deletes exactly its two entries. */
  lemma RemoveFindsItself(caps: L.Caps, addrs: seq<IPv4>, now: int, es: seq<Event>, h: Handler)
    requires Ascending(addrs) && Runs(caps, Start(addrs, now), es)
    requires Enabled(caps, Run(caps, Start(addrs, now), es), Unregister(h))
    ensures var s := Run(caps, Start(addrs, now), es);
      var x := Step(caps, s, Unregister(h)).index;
      && s.phases[h].cn in s.index.byCN && s.index.byCN[s.phases[h].cn] == h
      && x.byCN == s.index.byCN - {s.phases[h].cn} && x.byIPv4 == s.index.byIPv4 - {s.phases[h].ip}
  {
    StartHolds(caps, addrs, now);
    RunKeeps(caps, Start(addrs, now), es);
    IndexLost(Run(caps, Start(addrs, now), es).phases, Run(caps, Start(addrs, now), es).index, h);
  }

  lemma {:induction false} AddrsFixed(caps: L.Caps, s: State, es: seq<Event>)
    requires Runs(caps, s, es)
    ensures Run(caps, s, es).pool.addrs == s.pool.addrs
    decreases |es|
  {
    if es != [] {
      AddrsFixed(caps, Step(caps, s, es[0]), es[1..]);
    }
  }

  /** Nothing leaks: once every handler has returned, the registry is empty, every
      address is free again, and the limiter counts only penalties whose timers
      are still running. */
  lemma NothingLeaks(caps: L.Caps, addrs: seq<IPv4>, now: int, es: seq<Event>)
    requires Ascending(addrs) && Runs(caps, Start(addrs, now), es)
    requires forall h :: h in Run(caps, Start(addrs, now), es).phases ==>
               Run(caps, Start(addrs, now), es).phases[h].Gone?
    ensures var s := Run(caps, Start(addrs, now), es);
      && s.index == Index(map[], map[])
      && s.pool == Start(addrs, now).pool
      && s.lim.live == map[] && s.lim.c.total == |s.lim.pending|
  {
    StartHolds(caps, addrs, now);
    RunKeeps(caps, Start(addrs, now), es);
    AddrsFixed(caps, Start(addrs, now), es);
    var s := Run(caps, Start(addrs, now), es);
    assert forall h, c :: !HoldsFor(s.phases, h, c);
    assert s.pool.byClient.Keys == {};
    assert s.index.byCN == map[] && s.index.byIPv4 == map[] && s.lim.live == map[];
    assert s.pool.free == set a | a in addrs;
  }

  /** The limiter's part of any server run is a run of the limiter, so its
      conservation and rate results hold here too. */
  lemma SlotsAccounted(caps: L.Caps, addrs: seq<IPv4>, now: int, es: seq<Event>, ip: string, from: int)
    requires Ascending(addrs) && Runs(caps, Start(addrs, now), es)
    ensures var s := Run(caps, Start(addrs, now), es);
      && s.lim.c.total == |set h | h in s.phases && HoldsSlot(s.phases[h])| + |s.lim.pending|
      && s.lim.c.total == SumOf(s.lim.c.perIP)
      && (caps.maxTotal > 0 ==> s.lim.c.total <= caps.maxTotal)
      && (caps.maxPerIP > 0 ==> L.Count(s.lim.c.perIP, ip) <= caps.maxPerIP)
      && (caps.ThrottleActive() ==> |L.Window(s.lim.hist, ip, from, caps.failPenalty)| <= caps.maxPerIP)
  {
    StartHolds(caps, addrs, now);
    RunKeeps(caps, Start(addrs, now), es);
    var s := Run(caps, Start(addrs, now), es);
    assert (set h | h in s.phases && HoldsSlot(s.phases[h])) == s.lim.live.Keys;
  }
}
