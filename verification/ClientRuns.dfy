/** The client and its host together: internal/tunnel/client/client.go over the
    route manager of internal/route/route.go, from the first dial to the end of
    Run, while the OS changes the routing table on its own. */
module ClientRuns {
  import opened Base
  import opened Prefixes
  import P = ClientPath
  import R = RouteRuns
  import Route

  /** `host` is the part of the kernel's table that is the host's own. */
  datatype Whole = Whole(r: P.Run, host: Table)

  datatype Event = Client(step: P.Event) | Os(change: R.Event)

  /** The manager's part of the state; without one, a manager that records nothing. */
  function Managed(w: Whole): R.World {
    var s := w.r.s;
    R.World(s.kernel, if s.routes.Some? then s.routes.value else Route.Mgr("", None, None, None, []), w.host)
  }

  /** `servers` are the addresses ever dialled; none of them is pushed as a host
      route. */
  ghost predicate Enabled(w: Whole, e: Event, servers: set<Addr>) {
    match e
    case Client(ce) =>
      && P.Enabled(w.r, ce)
      && (ce.Dial? ==> ce.target in servers)
      && (ce.Assign? ==> R.PushesAvoid(ce.a.cidrs, servers))
    case Os(oe) => (oe.OsDrop? || oe.HostGains? || oe.HostLoses?) && R.Enabled(Managed(w), oe, servers)
  }

  ghost function Step(w: Whole, c: P.Config, e: Event, servers: set<Addr>): Whole
    requires Enabled(w, e, servers)
  {
    match e
    case Client(ce) => w.(r := P.Step(w.r, c, ce))
    case Os(oe) =>
      var after := R.Step(Managed(w), oe);
      Whole(w.r.(s := w.r.s.(kernel := after.k)), after.host)
  }

  ghost predicate Runs(w: Whole, c: P.Config, es: seq<Event>, servers: set<Addr>)
    decreases |es|
  {
    es == [] || (Enabled(w, es[0], servers) && Runs(Step(w, c, es[0], servers), c, es[1..], servers))
  }

  ghost function After(w: Whole, c: P.Config, es: seq<Event>, servers: set<Addr>): Whole
    requires Runs(w, c, es, servers)
    decreases |es|
  {
    if es == [] then w else After(Step(w, c, es[0], servers), c, es[1..], servers)
  }

  /** With a manager its own invariant holds; without one the table is the host's. */
  ghost predicate HostInv(s: P.State, host: Table, servers: set<Addr>) {
    if s.routes.Some? then R.Inv(R.World(s.kernel, s.routes.value, host), servers)
    else s.kernel.table == host && Canonical(host)
  }

  ghost predicate Inv(w: Whole, c: P.Config, servers: set<Addr>) {
    && P.Inv(w.r, c) && HostInv(w.r.s, w.host, servers)
    && (w.r.phase.Dialled? ==> w.r.phase.target in servers)
    && (w.r.phase.Finished? ==> w.r.s.routes.None?)
  }

  lemma PreparedKeepsHost(s: P.State, host: Table, servers: set<Addr>, target: Addr,
                          gateway: Option<Addr>, o: P.Outcome)
    requires HostInv(s, host, servers) && target in servers
    ensures HostInv(P.Prepared(s, target, gateway, o), host, servers)
  {
    P.PinnedTarget(s, target, gateway);
    if s.routes.Some? {
      R.StepKeeps(R.World(s.kernel, s.routes.value, host), R.Pin(Some(target), gateway), servers);
    }
  }

  lemma RoutedKeepsHost(s: P.State, host: Table, servers: set<Addr>, c: P.Config, a: P.Assignment,
                        remote: Option<Addr>, gateway: Option<Addr>)
    requires HostInv(s, host, servers) && R.PushesAvoid(a.cidrs, servers)
    requires remote.Some? ==> remote.value in servers
    ensures HostInv(P.Routed(s, c, a, remote, gateway).0, host, servers)
  {
    if !(s.routes.Some? || a.cidrs == [] || a.gateway.None? || remote.None?) {
      var m := Route.Mgr(c.iface, a.gateway, remote, None, []);
      if Route.Install(s.kernel, m, gateway, a.cidrs).2.None? {
        R.InstallEstablishes(s.kernel, m, gateway, a.cidrs, servers);
      } else {
        R.FailedInstallRestores(s.kernel, m, gateway, a.cidrs);
      }
    }
  }

  lemma TornDownKeepsHost(s: P.State, host: Table, servers: set<Addr>, o: P.Outcome)
    requires HostInv(s, host, servers)
    ensures HostInv(P.TornDown(s, o), host, servers)
  {
    if s.routes.Some? {
      R.RollbackRestores(host, s.kernel, s.routes.value.installed);
      assert forall p :: p in host ==> p in s.kernel.table;
    }
  }

  lemma OsKeepsHost(w: Whole, e: R.Event, servers: set<Addr>)
    requires HostInv(w.r.s, w.host, servers) && Enabled(w, Os(e), servers)
    ensures var after := R.Step(Managed(w), e); HostInv(w.r.s.(kernel := after.k), after.host, servers)
  {
    if w.r.s.routes.Some? {
      R.StepKeeps(Managed(w), e, servers);
      assert R.Step(Managed(w), e).m == w.r.s.routes.value;
    }
  }

  lemma StepKeeps(w: Whole, c: P.Config, e: Event, servers: set<Addr>)
    requires Inv(w, c, servers) && Enabled(w, e, servers)
    ensures Inv(Step(w, c, e, servers), c, servers)
  {
    match e
    case Os(oe) => OsKeepsHost(w, oe, servers);
    case Client(ce) =>
      P.StepKeeps(w.r, c, ce);
      match ce
      case Dial(target, gateway, o) => PreparedKeepsHost(w.r.s, w.host, servers, target, gateway, o);
      case Assign(a, remoteKnown, gateway, o, _, _) =>
        var remote := if remoteKnown then Some(w.r.phase.target) else None;
        RoutedKeepsHost(P.Protected(w.r.s, c, a.cidrs, remote, o).0, w.host, servers, c, a, remote, gateway);
      case Lost =>
      case Finish(o) => TornDownKeepsHost(w.r.s, w.host, servers, o);
  }

  lemma {:induction false} RunKeeps(w: Whole, c: P.Config, es: seq<Event>, servers: set<Addr>)
    requires Inv(w, c, servers) && Runs(w, c, es, servers)
    ensures Inv(After(w, c, es, servers), c, servers)
    decreases |es|
  {
    if es != [] {
      StepKeeps(w, c, es[0], servers);
      RunKeeps(Step(w, c, es[0], servers), c, es[1..], servers);
    }
  }

  /** However the run went (re-pins and installs that failed, routes the OS flushed,
      gateways that changed, a fatal error half way), a client that is done leaves
      exactly the host's own table; and while it is at work no host route is
      altered. */
  lemma HostIsLeftAsFound(w: Whole, c: P.Config, es: seq<Event>, servers: set<Addr>)
    requires P.Fresh(w.r) && w.r.s.kernel.table == w.host && Canonical(w.host) && Runs(w, c, es, servers)
    ensures var t := After(w, c, es, servers);
      && (t.r.phase.Finished? ==> t.r.s.kernel.table == t.host)
      && (forall p :: p in t.host ==> p in t.r.s.kernel.table && t.r.s.kernel.table[p] == t.host[p])
  {
    RunKeeps(w, c, es, servers);
  }

  lemma DefaultTakesAlong(cidr: Route.Cidr, x: IPv4)
    requires cidr.Parsed? && cidr.p.addr.V4? && cidr.p.bits == 0
    ensures R.TakesAlong(cidr, x, 1)
  {
    R.DefaultCovers(cidr.p, x);
  }

  /** The first time a run gets connected with pushes, what the tunnel takes. */
  lemma FirstRoutes(w: Whole, c: P.Config, servers: set<Addr>, e: P.Event, x: IPv4)
    requires Inv(w, c, servers) && w.r.phase.Dialled? && w.r.s.routes.None?
    requires e.Assign? && e.a.cidrs != [] && P.Step(w.r, c, e).phase.Connected?
    ensures e.a.gateway.Some? && e.gateway.Some?
    ensures var s := P.Step(w.r, c, e).s;
      var host := Longest(w.host, x);
      Lookup(s.kernel.table, x) ==
        if w.r.phase.target == V4(x) then Some(Hop(e.gateway.value, ""))
        else if exists cidr :: cidr in e.a.cidrs && R.TakesAlong(cidr, x, if host < 0 then 0 else host) then
          Some(Hop(e.a.gateway.value, c.iface))
        else Lookup(w.host, x)
  {
    var remote := if e.remoteKnown then Some(w.r.phase.target) else None;
    var s1 := P.Protected(w.r.s, c, e.a.cidrs, remote, e.o).0;
    var m := Route.Mgr(c.iface, e.a.gateway, remote, None, []);
    R.PushedTrafficTunnels(s1.kernel, m, e.gateway, e.a.cidrs, x);
  }

  /** A client that is pushed an IPv4 default route and gets connected sends every
      address the host has nothing more specific for into the tunnel, except the
      server's, and then has the kill-switch up, unless the user opted out or a
      re-point failed. */
  lemma DefaultPushIsGuarded(w: Whole, c: P.Config, es: seq<Event>, servers: set<Addr>, e: P.Event, dflt: Prefix)
    requires P.Fresh(w.r) && w.r.s.kernel.table == w.host && Canonical(w.host) && Runs(w, c, es, servers)
    requires var t := After(w, c, es, servers); t.r.phase.Dialled? && t.r.s.routes.None?
    requires e.Assign? && Route.Parsed(dflt) in e.a.cidrs && dflt.addr.V4? && dflt.bits == 0
    requires P.Step(After(w, c, es, servers).r, c, e).phase.Connected?
    ensures var t := After(w, c, es, servers);
      var s := P.Step(t.r, c, e).s;
      && (forall x: IPv4 :: V4(x) != t.r.phase.target && Longest(t.host, x) <= 1 ==>
            e.a.gateway.Some? && Lookup(s.kernel.table, x) == Some(Hop(e.a.gateway.value, c.iface)))
      && ((s.guard && s.rules == Some(t.r.phase.target)) || (s.optedOut && c.allowInsecureLeak) || s.repointFailed)
  {
    RunKeeps(w, c, es, servers);
    var t := After(w, c, es, servers);
    var s := P.Step(t.r, c, e).s;
    forall x: IPv4 | V4(x) != t.r.phase.target && Longest(t.host, x) <= 1
      ensures e.a.gateway.Some? && Lookup(s.kernel.table, x) == Some(Hop(e.a.gateway.value, c.iface))
    {
      FirstRoutes(t, c, servers, e, x);
      DefaultTakesAlong(Route.Parsed(dflt), x);
      var host := Longest(t.host, x);
      assert R.TakesAlong(Route.Parsed(dflt), x, if host < 0 then 0 else host);
    }
    P.StepKeeps(t.r, c, e);
  }

  /** The test for a default route looks at lengths only: pushed as two halves, the
      whole address space goes to the tunnel just the same, and nothing is guarded. */
  lemma ExplicitHalvesAreUnguarded(w: Whole, c: P.Config, es: seq<Event>, servers: set<Addr>, e: P.Event)
    requires P.Fresh(w.r) && w.r.s.kernel.table == w.host && Canonical(w.host) && Runs(w, c, es, servers)
    requires var t := After(w, c, es, servers); t.r.phase.Dialled? && t.r.s.routes.None? && !t.r.s.guard
    requires e.Assign? && e.a.cidrs == [Route.Parsed(Route.LOWER_HALF), Route.Parsed(Route.UPPER_HALF)]
    requires P.Step(After(w, c, es, servers).r, c, e).phase.Connected?
    ensures var t := After(w, c, es, servers);
      var s := P.Step(t.r, c, e).s;
      && (forall x: IPv4 :: V4(x) != t.r.phase.target && Longest(t.host, x) <= 1 ==>
            e.a.gateway.Some? && Lookup(s.kernel.table, x) == Some(Hop(e.a.gateway.value, c.iface)))
      && !s.guard && s.rules == t.r.s.rules
  {
    RunKeeps(w, c, es, servers);
    var t := After(w, c, es, servers);
    var s := P.Step(t.r, c, e).s;
    forall x: IPv4 | V4(x) != t.r.phase.target && Longest(t.host, x) <= 1
      ensures e.a.gateway.Some? && Lookup(s.kernel.table, x) == Some(Hop(e.a.gateway.value, c.iface))
    {
      FirstRoutes(t, c, servers, e, x);
      var half := R.HalfTakesAlong(x);
      var host := Longest(t.host, x);
      assert R.TakesAlong(half, x, if host < 0 then 0 else host);
    }
  }
}
