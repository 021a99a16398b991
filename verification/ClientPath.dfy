/** internal/tunnel/client/client.go: keeping the route manager and the kill-switch
    pointed at the address being dialled, attempt after attempt. */
module ClientPath {
  import opened Base
  import opened Prefixes
  import Route

  datatype Config = Config(iface: string, allowInsecureLeak: bool)

  /** What the firewall commands report: Restore, Enable, and for an Enable that
      fails whether it had dropped an older table first. */
  datatype Outcome = Outcome(restored: bool, enabled: bool, dropped: bool)

  /** The routes the server pushes, and its gateway if that parses. */
  datatype Assignment = Assignment(cidrs: seq<Route.Cidr>, gateway: Option<Addr>)

  datatype Phase = Idle | Dialled(target: Addr) | Connected(server: Addr, cidrs: seq<Route.Cidr>) | Stopped | Finished

  /** `rules` is what the kernel enforces, named by the one server it lets through;
      `guard` says that the client holds the manager of those rules. The last three
      record how protection came to be off, or left behind. */
  datatype State = State(
    pinned: Option<Addr>,
    routes: Option<Route.Mgr>,
    guard: bool,
    off: bool,
    rules: Option<Addr>,
    kernel: Route.Kernel,
    repointFailed: bool,
    optedOut: bool,
    stranded: bool)

  predicate FullTunnel(cidrs: seq<Route.Cidr>) {
    exists i :: 0 <= i < |cidrs| && cidrs[i].Parsed? && cidrs[i].p.bits == 0
  }

  /** Any leftover table goes first, then the new one is loaded whole or not at all. */
  function Loaded(rules: Option<Addr>, server: Addr, o: Outcome): Option<Addr> {
    if o.enabled then Some(server) else if o.dropped then None else rules
  }

  function RoutesPrepared(s: State, target: Addr, gateway: Option<Addr>): State {
    if s.routes.None? then s
    else
      var (k, m, _) := Route.PinServer(s.kernel, s.routes.value, Some(target), gateway);
      s.(kernel := k, routes := Some(m))
  }

  /** A Restore that fails leaves the manager applied, and Enable then refuses. */
  function GuardPrepared(s: State, target: Addr, o: Outcome): State {
    if !s.guard || s.pinned.None? || s.pinned == Some(target) then s
    else if o.restored && o.enabled then s.(rules := Some(target))
    else s.(rules := if o.restored then None else s.rules, guard := false, off := true,
            repointFailed := true, stranded := s.stranded || !o.restored)
  }

  function Prepared(s: State, target: Addr, gateway: Option<Addr>, o: Outcome): State {
    GuardPrepared(RoutesPrepared(s, target, gateway), target, o).(pinned := Some(target))
  }

  function Unavailable(s: State, c: Config): (State, bool) {
    if c.allowInsecureLeak then (s.(off := true, optedOut := true), true) else (s, false)
  }

  function Protected(s: State, c: Config, cidrs: seq<Route.Cidr>, remote: Option<Addr>, o: Outcome): (State, bool) {
    if s.guard || s.off || !FullTunnel(cidrs) then (s, true)
    else if remote.None? then Unavailable(s, c)
    else
      var s' := s.(rules := Loaded(s.rules, remote.value, o));
      if o.enabled then (s'.(guard := true), true) else Unavailable(s', c)
  }

  function Routed(s: State, c: Config, a: Assignment, remote: Option<Addr>, gateway: Option<Addr>): (State, bool) {
    if s.routes.Some? || a.cidrs == [] then (s, true)
    else if a.gateway.None? || remote.None? then (s, false)
    else
      var m := Route.Mgr(c.iface, a.gateway, remote, None, []);
      var (k, m', error) := Route.Install(s.kernel, m, gateway, a.cidrs);
      (s.(kernel := k, routes := if error.None? then Some(m') else None), error.None?)
  }

  function TornDown(s: State, o: Outcome): State {
    s.(kernel := if s.routes.Some? then Route.Remove(s.kernel, s.routes.value).0 else s.kernel,
       routes := None, guard := false,
       rules := if s.guard && o.restored then None else s.rules)
  }

  // --------------------------------------------------------------- classes

  /** The kernel's firewall table. */
  class Nft {
    var rules: Option<Addr>

    constructor (rules: Option<Addr>)
      ensures this.rules == rules
    {
      this.rules := rules;
    }
  }

  class FirewallManager {
    const nft: Nft
    var applied: bool

    constructor (nft: Nft)
      ensures this.nft == nft && !applied
    {
      this.nft, applied := nft, false;
    }

    /** Refused while already applied. */
    method Enable(server: Addr, o: Outcome) returns (ok: bool)
      modifies this, nft
      ensures ok <==> !old(applied) && o.enabled
      ensures applied <==> old(applied) || ok
      ensures nft.rules == if old(applied) then old(nft.rules) else Loaded(old(nft.rules), server, o)
      ensures ok ==> nft.rules == Some(server)
      ensures !ok ==> nft.rules == if !old(applied) && o.dropped then None else old(nft.rules)
    {
      if applied {
        return false;
      }
      if !o.enabled {
        nft.rules := if o.dropped then None else nft.rules;
        return false;
      }
      nft.rules := Some(server);
      applied := true;
      return true;
    }

    method Remove(o: Outcome)
      modifies this, nft
      ensures applied <==> old(applied) && !o.restored
      ensures nft.rules == if old(applied) && o.restored then None else old(nft.rules)
    {
      if !applied || !o.restored {
        return;
      }
      nft.rules := None;
      applied := false;
    }
  }

  method IsFullTunnel(cidrs: seq<Route.Cidr>) returns (full: bool)
    ensures full <==> FullTunnel(cidrs)
    ensures full <==> exists cidr :: cidr in cidrs && cidr.Parsed? && cidr.p.bits == 0
  {
    for i := 0 to |cidrs|
      invariant forall j :: 0 <= j < i ==> !(cidrs[j].Parsed? && cidrs[j].p.bits == 0)
    {
      if cidrs[i].Parsed? && cidrs[i].p.bits == 0 {
        return true;
      }
    }
    return false;
  }

  class Client {
    const cfg: Config
    const kernel: Route.Runner
    const nft: Nft
    var pinned: Option<Addr>
    var routes: Route.Manager?
    var leakguard: FirewallManager?
    var leakguardOff: bool
    ghost var repointFailed: bool
    ghost var optedOut: bool
    ghost var stranded: bool

    ghost predicate Valid()
      reads this, kernel, nft, routes, leakguard
    {
      && (routes != null ==> routes.runner == kernel)
      && (leakguard != null ==> leakguard.nft == nft && leakguard.applied)
    }

    ghost function Abstract(): State
      reads this, kernel, nft, routes, leakguard
    {
      State(pinned, if routes == null then None else Some(routes.State()), leakguard != null, leakguardOff,
            nft.rules, kernel.st, repointFailed, optedOut, stranded)
    }

    constructor (cfg: Config, kernel: Route.Runner, nft: Nft)
      ensures Valid() && this.cfg == cfg && this.kernel == kernel && this.nft == nft
      ensures Abstract() == State(None, None, false, false, nft.rules, kernel.st, false, false, false)
    {
      this.cfg, this.kernel, this.nft := cfg, kernel, nft;
      pinned, routes, leakguard, leakguardOff := None, null, null, false;
      repointFailed, optedOut, stranded := false, false, false;
    }

    method PreparePath(target: Addr, gateway: Option<Addr>, o: Outcome)
      requires Valid()
      modifies this, kernel, nft, routes, leakguard
      ensures Valid()
      ensures Abstract() == Prepared(old(Abstract()), target, gateway, o)
    {
      RepinRoutes(target, gateway);
      RepointGuard(target, o);
      pinned := Some(target);
    }

    method RepinRoutes(target: Addr, gateway: Option<Addr>)
      requires Valid()
      modifies kernel, routes
      ensures Valid()
      ensures Abstract() == RoutesPrepared(old(Abstract()), target, gateway)
    {
      if routes != null {
        var _ := routes.Pin(Some(target), gateway);
      }
    }

    method RepointGuard(target: Addr, o: Outcome)
      requires Valid()
      modifies this`leakguard, this`leakguardOff, this`repointFailed, this`stranded, nft, leakguard
      ensures Valid()
      ensures Abstract() == GuardPrepared(old(Abstract()), target, o)
    {
      if leakguard != null && pinned.Some? && pinned != Some(target) {
        leakguard.Remove(o);
        var ok := leakguard.Enable(target, o);
        if !ok {
          stranded := stranded || leakguard.applied;
          leakguardOff, leakguard, repointFailed := true, null, true;
        }
      }
    }

    method EnsureLeakProtection(cidrs: seq<Route.Cidr>, remote: Option<Addr>, o: Outcome) returns (ok: bool)
      requires Valid()
      modifies this, nft
      ensures Valid()
      ensures (Abstract(), ok) == Protected(old(Abstract()), cfg, cidrs, remote, o)
    {
      if leakguard != null || leakguardOff {
        return true;
      }
      var full := IsFullTunnel(cidrs);
      if !full {
        return true;
      }
      if remote.None? {
        ok := LeakProtectionUnavailable();
        return;
      }
      var mgr := new FirewallManager(nft);
      var up := mgr.Enable(remote.value, o);
      if !up {
        ok := LeakProtectionUnavailable();
        return;
      }
      leakguard := mgr;
      return true;
    }

    method LeakProtectionUnavailable() returns (ok: bool)
      modifies this`leakguardOff, this`optedOut
      ensures ok == cfg.allowInsecureLeak
      ensures leakguardOff == (old(leakguardOff) || ok) && optedOut == (old(optedOut) || ok)
    {
      if cfg.allowInsecureLeak {
        leakguardOff, optedOut := true, true;
        return true;
      }
      return false;
    }

    method EnsureRoutes(a: Assignment, remote: Option<Addr>, gateway: Option<Addr>) returns (ok: bool)
      requires Valid()
      modifies this`routes, kernel
      ensures Valid()
      ensures (Abstract(), ok) == Routed(old(Abstract()), cfg, a, remote, gateway)
    {
      if routes != null || |a.cidrs| == 0 {
        return true;
      }
      if a.gateway.None? || remote.None? {
        return false;
      }
      var mgr := new Route.Manager(kernel, cfg.iface, a.gateway, remote);
      var error := mgr.InstallRoutes(gateway, a.cidrs);
      if error.Some? {
        return false;
      }
      routes := mgr;
      return true;
    }

    /** The end of Run: routes first, the kill-switch last. */
    method TearDown(o: Outcome)
      requires Valid()
      modifies this, kernel, nft, routes, leakguard
      ensures Valid()
      ensures Abstract() == TornDown(old(Abstract()), o)
    {
      var rm, fm := routes, leakguard;
      routes, leakguard := null, null;
      if rm != null {
        rm.RemoveAll();
      }
      if fm != null {
        fm.Remove(o);
      }
    }
  }

  // ------------------------------------------------------------------ runs

  datatype Run = Run(s: State, phase: Phase)

  /** `remoteKnown`: the connection's remote address could be read back, and is then
      the address dialled. `configured` and `dnsOk`: the steps of connectOnce this
      module leaves out. */
  datatype Event =
    | Dial(target: Addr, gateway: Option<Addr>, o: Outcome)
    | Assign(a: Assignment, remoteKnown: bool, gateway: Option<Addr>, o: Outcome, configured: bool, dnsOk: bool)
    | Lost
    | Finish(o: Outcome)

  predicate Enabled(r: Run, e: Event) {
    match e
    case Dial(_, _, _) => r.phase.Idle?
    case Assign(_, _, _, _, _, _) => r.phase.Dialled?
    case Lost => r.phase.Dialled? || r.phase.Connected?
    case Finish(_) => !r.phase.Finished?
  }

  function Step(r: Run, c: Config, e: Event): Run
    requires Enabled(r, e)
  {
    match e
    case Dial(target, gateway, o) => Run(Prepared(r.s, target, gateway, o), Dialled(target))
    case Assign(a, remoteKnown, gateway, o, configured, dnsOk) =>
      var server := r.phase.target;
      var remote := if remoteKnown then Some(server) else None;
      if !configured then r.(phase := Stopped)
      else
        var (s1, guarded) := Protected(r.s, c, a.cidrs, remote, o);
        if !guarded then Run(s1, Stopped)
        else
          var (s2, routed) := Routed(s1, c, a, remote, gateway);
          if routed && dnsOk then Run(s2, Connected(server, a.cidrs)) else Run(s2, Stopped)
    case Lost => r.(phase := Idle)
    case Finish(o) => Run(TornDown(r.s, o), Finished)
  }

  predicate Runs(r: Run, c: Config, es: seq<Event>)
    decreases |es|
  {
    es == [] || (Enabled(r, es[0]) && Runs(Step(r, c, es[0]), c, es[1..]))
  }

  function After(r: Run, c: Config, es: seq<Event>): Run
    requires Runs(r, c, es)
    decreases |es|
  {
    if es == [] then r else After(Step(r, c, es[0]), c, es[1..])
  }

  /** A new client; a crashed one may have left rules behind. */
  predicate Fresh(r: Run) {
    && r.phase == Idle && r.s.pinned.None? && r.s.routes.None? && !r.s.guard && !r.s.off
    && !r.s.repointFailed && !r.s.optedOut && !r.s.stranded
  }

  predicate Inv(r: Run, c: Config) {
    && (r.s.guard ==> r.s.pinned.Some? && r.s.rules == r.s.pinned && !r.s.off)
    && (r.s.routes.Some? ==> r.s.pinned.Some? && r.s.routes.value.server == r.s.pinned)
    && (r.phase.Dialled? ==> r.s.pinned == Some(r.phase.target))
    && (r.phase.Connected? ==> r.s.pinned == Some(r.phase.server) && (r.phase.cidrs != [] ==> r.s.routes.Some?))
    && (r.phase.Connected? && !r.s.guard && !r.s.off ==>
          forall cidr :: cidr in r.phase.cidrs && cidr.Parsed? ==> cidr.p.bits > 0)
    && (r.s.off <==> r.s.optedOut || r.s.repointFailed)
    && (r.s.optedOut ==> c.allowInsecureLeak)
    && (r.s.stranded ==> r.s.repointFailed)
  }

  lemma PinnedTarget(s: State, target: Addr, gateway: Option<Addr>)
    ensures var s' := RoutesPrepared(s, target, gateway);
      && (s'.routes.Some? <==> s.routes.Some?)
      && (s'.routes.Some? ==> s'.routes.value.server == Some(target))
      && s' == s.(kernel := s'.kernel, routes := s'.routes)
  {
  }

  lemma InstalledServer(s: State, c: Config, a: Assignment, remote: Option<Addr>, gateway: Option<Addr>)
    ensures var s' := Routed(s, c, a, remote, gateway).0;
      && s' == s.(kernel := s'.kernel, routes := s'.routes)
      && (s.routes.None? && s'.routes.Some? ==> s'.routes.value.server == remote && remote.Some?)
      && (s.routes.Some? ==> s' == s)
  {
  }

  lemma StepKeeps(r: Run, c: Config, e: Event)
    requires Inv(r, c) && Enabled(r, e)
    ensures Inv(Step(r, c, e), c)
  {
    match e
    case Dial(target, gateway, o) => PinnedTarget(r.s, target, gateway);
    case Assign(a, remoteKnown, gateway, o, configured, dnsOk) =>
      var remote := if remoteKnown then Some(r.phase.target) else None;
      InstalledServer(Protected(r.s, c, a.cidrs, remote, o).0, c, a, remote, gateway);
    case _ =>
  }

  lemma {:induction false} RunKeeps(r: Run, c: Config, es: seq<Event>)
    requires Inv(r, c) && Runs(r, c, es)
    ensures Inv(After(r, c, es), c)
    decreases |es|
  {
    if es != [] {
      StepKeeps(r, c, es[0]);
      RunKeeps(Step(r, c, es[0]), c, es[1..]);
    }
  }

  /** At every dial, the kill-switch lets through and the route manager pins
      exactly the address being dialled. */
  lemma DialIsNotBlocked(r: Run, c: Config, es: seq<Event>)
    requires Fresh(r) && Runs(r, c, es) && After(r, c, es).phase.Dialled?
    ensures var s := After(r, c, es).s;
      var target := After(r, c, es).phase.target;
      && (s.guard ==> s.rules == Some(target))
      && (s.routes.Some? ==> s.routes.value.server == Some(target))
  {
    RunKeeps(r, c, es);
  }

  /** At any dial of an IPv4 address with routes installed, a re-pin that succeeds
      leaves the address routed to the default gateway of the moment, outside the
      tunnel and through the kill-switch. */
  lemma DialGoesDirect(r: Run, c: Config, es: seq<Event>, target: Addr, gateway: Option<Addr>, o: Outcome)
    requires Fresh(r) && Runs(r, c, es) && After(r, c, es).phase.Idle?
    requires After(r, c, es).s.routes.Some? && target.V4?
    requires Route.PinServer(After(r, c, es).s.kernel, After(r, c, es).s.routes.value, Some(target), gateway).2.None?
    ensures var s := Step(After(r, c, es), c, Dial(target, gateway, o)).s;
      && gateway.Some? && gateway != s.routes.value.tunGW
      && Lookup(s.kernel.table, target.a) == Some(Hop(gateway.value, ""))
      && (s.guard ==> s.rules == Some(target))
  {
    RunKeeps(r, c, es);
    StepKeeps(After(r, c, es), c, Dial(target, gateway, o));
    HostIsMasked(target);
    HostRouteWins(Step(After(r, c, es), c, Dial(target, gateway, o)).s.kernel.table, target.a);
  }

  /** A session reported connected that was pushed a default route, IPv4 or IPv6,
      has the kill-switch up for its own server, unless the user opted out of
      protection and it could not be had, or an earlier re-point failed; and one
      that was pushed anything has a route manager. */
  lemma ConnectedIsProtected(r: Run, c: Config, es: seq<Event>)
    requires Fresh(r) && Runs(r, c, es) && After(r, c, es).phase.Connected?
    ensures var t := After(r, c, es);
      && ((exists cidr :: cidr in t.phase.cidrs && cidr.Parsed? && cidr.p.bits == 0) ==>
            || (t.s.guard && t.s.rules == Some(t.phase.server))
            || (t.s.optedOut && c.allowInsecureLeak) || t.s.repointFailed)
      && (t.phase.cidrs != [] ==> t.s.routes.Some? && t.s.routes.value.server == Some(t.phase.server))
  {
    RunKeeps(r, c, es);
  }

  /** A re-point that goes wrong: the server has moved while the kill-switch was
      up, and the old rules would not go or the new ones would not load. */
  predicate RepointFails(r: Run, e: Event) {
    e.Dial? && r.s.guard && r.s.pinned != Some(e.target) && !(e.o.restored && e.o.enabled)
  }

  /** A default route comes with no protection to be had, and the user allows it. */
  predicate OptsOut(r: Run, c: Config, e: Event) {
    && e.Assign? && e.configured && c.allowInsecureLeak && !r.s.guard && !r.s.off
    && !(e.remoteKnown && e.o.enabled)
    && exists i :: 0 <= i < |e.a.cidrs| && e.a.cidrs[i].Parsed? && e.a.cidrs[i].p.bits == 0
  }

  /** Protection is given up at some step of the run. */
  predicate GivesUp(r: Run, c: Config, es: seq<Event>)
    requires Runs(r, c, es)
    decreases |es|
  {
    es != [] && (RepointFails(r, es[0]) || OptsOut(r, c, es[0]) || GivesUp(Step(r, c, es[0]), c, es[1..]))
  }

  lemma OffNext(r: Run, c: Config, e: Event)
    requires Inv(r, c) && Enabled(r, e)
    ensures Step(r, c, e).s.off <==> r.s.off || RepointFails(r, e) || OptsOut(r, c, e)
    ensures r.s.guard && !RepointFails(r, e) && !e.Finish? ==> Step(r, c, e).s.guard
  {
    match e
    case Dial(target, gateway, o) => PinnedTarget(r.s, target, gateway);
    case Assign(a, remoteKnown, gateway, o, configured, dnsOk) =>
      var remote := if remoteKnown then Some(r.phase.target) else None;
      InstalledServer(Protected(r.s, c, a.cidrs, remote, o).0, c, a, remote, gateway);
    case _ =>
  }

  /** Protection is off exactly if it was given up on the way. */
  lemma {:induction false} OffExactlyIfGivenUp(r: Run, c: Config, es: seq<Event>)
    requires Inv(r, c) && Runs(r, c, es)
    ensures After(r, c, es).s.off <==> r.s.off || GivesUp(r, c, es)
    decreases |es|
  {
    if es != [] {
      StepKeeps(r, c, es[0]);
      OffNext(r, c, es[0]);
      OffExactlyIfGivenUp(Step(r, c, es[0]), c, es[1..]);
    }
  }

  lemma FinishedStays(r: Run, c: Config, es: seq<Event>)
    requires r.phase.Finished? && Runs(r, c, es)
    ensures es == [] && After(r, c, es) == r
  {
  }

  /** Once up, the kill-switch stays up while sessions come and go, for whichever
      server was dialled last, until the client is done or a re-point goes wrong. */
  lemma {:induction false} GuardStaysUp(r: Run, c: Config, es: seq<Event>)
    requires Inv(r, c) && Runs(r, c, es) && r.s.guard
    requires !GivesUp(r, c, es) && !After(r, c, es).phase.Finished?
    ensures var s := After(r, c, es).s; s.guard && s.pinned.Some? && s.rules == s.pinned
    decreases |es|
  {
    if es != [] {
      if es[0].Finish? {
        FinishedStays(Step(r, c, es[0]), c, es[1..]);
      } else {
        StepKeeps(r, c, es[0]);
        OffNext(r, c, es[0]);
        GuardStaysUp(Step(r, c, es[0]), c, es[1..]);
      }
    }
  }

  /** Fail closed: a default route that cannot be protected, with no leave to go on
      without, ends the attempt before any route is touched. */
  lemma RefusedBeforeRouting(r: Run, c: Config, e: Event, cidr: Route.Cidr)
    requires r.phase.Dialled? && e.Assign? && !r.s.guard && !r.s.off && !c.allowInsecureLeak
    requires cidr in e.a.cidrs && cidr.Parsed? && cidr.p.bits == 0 && !(e.remoteKnown && e.o.enabled)
    ensures var t := Step(r, c, e); t.phase.Stopped? && t.s.kernel == r.s.kernel && t.s.routes == r.s.routes
  {
  }

  /** A lost connection leaves routes and rules as they are, and the next dial may
      follow at once. */
  lemma LossKeepsPath(r: Run, c: Config, target: Addr, gateway: Option<Addr>, o: Outcome)
    requires r.phase.Dialled? || r.phase.Connected?
    ensures Enabled(r, Lost) && Step(r, c, Lost).s == r.s && Enabled(Step(r, c, Lost), Dial(target, gateway, o))
  {
  }

  /** When an attempt gets connected: the interface and the resolvers could be set,
      protection was not called for, or is up or could be had, or was given up or
      may be; and the routes were in place, not called for, or could be installed. */
  lemma ConnectsExactlyIf(r: Run, c: Config, a: Assignment, remoteKnown: bool, gateway: Option<Addr>,
                          o: Outcome, configured: bool, dnsOk: bool)
    requires Inv(r, c) && r.phase.Dialled?
    ensures var m := Route.Mgr(c.iface, a.gateway, Some(r.phase.target), None, []);
      Step(r, c, Assign(a, remoteKnown, gateway, o, configured, dnsOk)).phase == Connected(r.phase.target, a.cidrs) <==>
        && configured && dnsOk
        && (r.s.guard || r.s.off || (forall cidr :: cidr in a.cidrs && cidr.Parsed? ==> cidr.p.bits > 0)
            || (remoteKnown && o.enabled) || c.allowInsecureLeak)
        && (r.s.routes.Some? || a.cidrs == []
            || (a.gateway.Some? && remoteKnown && Route.Install(r.s.kernel, m, gateway, a.cidrs).2.None?))
  {
  }

  /** A client that gave up its firewall manager never touches the rules again. */
  lemma {:induction false} NobodyTouchesRules(r: Run, c: Config, es: seq<Event>)
    requires Runs(r, c, es) && !r.s.guard && r.s.off
    ensures var s := After(r, c, es).s; !s.guard && s.off && s.rules == r.s.rules
    decreases |es|
  {
    if es != [] {
      NobodyTouchesRules(Step(r, c, es[0]), c, es[1..]);
    }
  }

  /** A re-point whose Restore fails leaves the old rules in force with nobody to
      remove them: they let through only the old server at every later dial, and
      stay when the client is gone. */
  lemma StrandedRules(r: Run, c: Config, es: seq<Event>, target: Addr, gateway: Option<Addr>, o: Outcome)
    requires Fresh(r) && Runs(r, c, es) && After(r, c, es).phase.Idle? && After(r, c, es).s.guard
    requires After(r, c, es).s.pinned != Some(target)
    ensures var was := After(r, c, es);
      var dialling := Step(was, c, Dial(target, gateway, o));
      && (dialling.s.rules in {None, Some(target)} <==> o.restored)
      && (!o.restored ==> forall later :: Runs(dialling, c, later) ==>
            After(dialling, c, later).s.rules == was.s.rules == was.s.pinned)
  {
    RunKeeps(r, c, es);
    var was := After(r, c, es);
    PinnedTarget(was.s, target, gateway);
    var dialling := Step(was, c, Dial(target, gateway, o));
    if !o.restored {
      forall later | Runs(dialling, c, later)
        ensures After(dialling, c, later).s.rules == was.s.rules
      {
        NobodyTouchesRules(dialling, c, later);
      }
    }
  }

  /** Rules are in force exactly while the client holds their manager, or for good
      once stranded. */
  predicate RulesHeld(s: State) {
    && (s.rules.Some? <==> s.guard || s.stranded)
    && (s.stranded ==> !s.guard && s.off)
  }

  lemma StepKeepsRules(r: Run, c: Config, e: Event)
    requires Inv(r, c) && RulesHeld(r.s) && Enabled(r, e) && !e.Finish?
    ensures RulesHeld(Step(r, c, e).s)
  {
    match e
    case Dial(target, gateway, o) => PinnedTarget(r.s, target, gateway);
    case Assign(a, remoteKnown, gateway, o, configured, dnsOk) =>
      var remote := if remoteKnown then Some(r.phase.target) else None;
      InstalledServer(Protected(r.s, c, a.cidrs, remote, o).0, c, a, remote, gateway);
    case _ =>
  }

  lemma {:induction false} RunKeepsRules(r: Run, c: Config, es: seq<Event>)
    requires Inv(r, c) && RulesHeld(r.s) && Runs(r, c, es) && !After(r, c, es).phase.Finished?
    ensures RulesHeld(After(r, c, es).s)
    decreases |es|
  {
    if es != [] {
      if es[0].Finish? {
        FinishedStays(Step(r, c, es[0]), c, es[1..]);
      } else {
        StepKeeps(r, c, es[0]);
        StepKeepsRules(r, c, es[0]);
        RunKeepsRules(Step(r, c, es[0]), c, es[1..]);
      }
    }
  }

  /** A client that found no rules leaves none behind, exactly if no Restore failed:
      neither at a re-point nor at the end. */
  lemma RulesGoneAfterFinish(r: Run, c: Config, es: seq<Event>, o: Outcome)
    requires Fresh(r) && r.s.rules.None? && Runs(r, c, es) && !After(r, c, es).phase.Finished?
    ensures var s := After(r, c, es).s;
      Step(After(r, c, es), c, Finish(o)).s.rules.None? <==> !s.stranded && (s.guard ==> o.restored)
  {
    RunKeepsRules(r, c, es);
  }
}
