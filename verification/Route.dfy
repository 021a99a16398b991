/** internal/route/route.go: the route manager against a kernel routing table. */
module Route {
  import opened Base
  import opened Prefixes

  // -------------------------------------------------------------- kernel

  /** The kernel's table, and the environment's decisions about the coming
      AddRoute calls: a call may fail for reasons of its own. */
  datatype Kernel = Kernel(table: Table, faults: seq<bool>)

  /** Adding fails if the (masked) prefix already has a route. */
  function AddRoute(k: Kernel, p: Prefix, hop: Hop): (Kernel, bool) {
    var faulty := k.faults != [] && k.faults[0];
    var k' := k.(faults := if k.faults == [] then [] else k.faults[1..]);
    if faulty || Masked(p) in k.table then (k', false)
    else (k'.(table := k.table[Masked(p) := hop]), true)
  }

  /** Deleting succeeds exactly when the full selector is present. */
  function DelRoute(k: Kernel, p: Prefix, hop: Hop): (Kernel, bool) {
    if Masked(p) in k.table && k.table[Masked(p)] == hop then
      (k.(table := k.table - {Masked(p)}), true)
    else (k, false)
  }

  // ------------------------------------------------------------- manager

  datatype Record = Record(prefix: Prefix, hop: Hop)

  datatype Mgr = Mgr(
    iface: string,
    tunGW: Option<Addr>,
    server: Option<Addr>,
    pinholeGW: Option<Addr>,
    installed: seq<Record>)

  datatype RouteError =
    | NoServer | NoTunGateway | ServerNotIPv4 | TunGatewayNotIPv4
    | NoDefaultGateway | PinholeRefused | BadPush | PushRefused
    | GatewayIsTunnel | PinholeLost | InvalidServer

  /** A pushed CIDR after netip.ParsePrefix. */
  datatype Cidr = Unparsable | Parsed(p: Prefix)

  const LOWER_HALF: Prefix := Prefix(V4(0), 1)
  const UPPER_HALF: Prefix := Prefix(V4(0x8000_0000), 1)

  /** An IPv4 default route becomes the two halves of the address space. */
  function ExpandDefault(p: Prefix): seq<Prefix> {
    if p.bits != 0 || !p.addr.V4? then [p] else [LOWER_HALF, UPPER_HALF]
  }

  /** What Install will try to add for one pushed CIDR: nothing for IPv6. */
  function Wanted(c: Cidr): seq<Prefix> {
    match c
    case Unparsable => []
    case Parsed(p) => if p.addr.V4? then ExpandDefault(p) else []
  }

  function AddAll(k: Kernel, recs: seq<Record>, ps: seq<Prefix>, hop: Hop): (Kernel, seq<Record>, bool)
    decreases |ps|
  {
    if ps == [] then (k, recs, true)
    else
      var (k', ok) := AddRoute(k, ps[0], hop);
      if ok then AddAll(k', recs + [Record(ps[0], hop)], ps[1..], hop) else (k', recs, false)
  }

  function PushAll(k: Kernel, recs: seq<Record>, cidrs: seq<Cidr>, hop: Hop)
    : (Kernel, seq<Record>, Option<RouteError>)
    decreases |cidrs|
  {
    if cidrs == [] then (k, recs, None)
    else if cidrs[0].Unparsable? then (k, recs, Some(BadPush))
    else
      var (k', recs', ok) := AddAll(k, recs, Wanted(cidrs[0]), hop);
      if ok then PushAll(k', recs', cidrs[1..], hop) else (k', recs', Some(PushRefused))
  }

  /** Removal in reverse order of installation. */
  function Rollback(k: Kernel, recs: seq<Record>): Kernel
    decreases |recs|
  {
    if recs == [] then k
    else
      var last := recs[|recs| - 1];
      Rollback(DelRoute(k, last.prefix, last.hop).0, recs[..|recs| - 1])
  }

  /** The checks Install makes before touching anything. */
  function InstallGuard(m: Mgr): Option<RouteError> {
    if m.server.None? then Some(NoServer)
    else if m.tunGW.None? then Some(NoTunGateway)
    else if !m.server.value.V4? then Some(ServerNotIPv4)
    else if !m.tunGW.value.V4? then Some(TunGatewayNotIPv4)
    else None
  }

  function Install(k: Kernel, m: Mgr, gateway: Option<Addr>, cidrs: seq<Cidr>): (Kernel, Mgr, Option<RouteError>) {
    var bad := InstallGuard(m);
    if bad.Some? then (k, m, bad)
    else if gateway.None? then (k, m, Some(NoDefaultGateway))
    else
      var m1 := m.(pinholeGW := gateway);
      var pinhole := Record(Host(m.server.value), Hop(gateway.value, ""));
      var (k1, ok) := AddRoute(k, pinhole.prefix, pinhole.hop);
      if !ok then (k1, m1, Some(PinholeRefused))
      else
        var (k2, recs, e) := PushAll(k1, m.installed + [pinhole], cidrs, Hop(m.tunGW.value, m.iface));
        if e.Some? then (Rollback(k2, recs), m1.(installed := []), e)
        else (k2, m1.(installed := recs), None)
  }

  function Remove(k: Kernel, m: Mgr): (Kernel, Mgr) {
    (Rollback(k, m.installed), m.(installed := []))
  }

  /** Points the first record of `p` at `gw`; the interface hint stays. */
  function Repointed(recs: seq<Record>, p: Prefix, gw: Addr): seq<Record> {
    if recs == [] then [Record(p, Hop(gw, ""))]
    else if recs[0].prefix == p then [Record(p, Hop(gw, recs[0].hop.iface))] + recs[1..]
    else [recs[0]] + Repointed(recs[1..], p, gw)
  }

  function RefreshServerPinhole(k: Kernel, m: Mgr, gateway: Option<Addr>): (Kernel, Mgr, Option<RouteError>) {
    if m.server.None? then (k, m, Some(NoServer))
    else if gateway.None? then (k, m, Some(NoDefaultGateway))
    else if gateway == m.tunGW then (k, m, Some(GatewayIsTunnel))
    else
      var pinhole := Host(m.server.value);
      var k1 := if m.pinholeGW.Some? then DelRoute(k, pinhole, Hop(m.pinholeGW.value, "")).0 else k;
      var (k2, ok) := AddRoute(k1, pinhole, Hop(gateway.value, ""));
      if !ok then (k2, m, Some(PinholeLost))
      else (k2, m.(pinholeGW := gateway, installed := Repointed(m.installed, pinhole, gateway.value)), None)
  }

  lemma RepointedNext(recs: seq<Record>, i: nat, p: Prefix, gw: Addr)
    requires i < |recs|
    ensures recs[..i] + Repointed(recs[i..], p, gw) ==
      if recs[i].prefix == p then recs[i := Record(p, Hop(gw, recs[i].hop.iface))]
      else recs[..i + 1] + Repointed(recs[i + 1..], p, gw)
  {
    assert recs[i..][0] == recs[i] && recs[i..][1..] == recs[i + 1..];
    if recs[i].prefix != p {
      Assoc(recs[..i], [recs[i]], Repointed(recs[i + 1..], p, gw));
      assert recs[..i] + [recs[i]] == recs[..i + 1];
    }
  }

  /** The records of every other prefix, in order. */
  function Forgotten(recs: seq<Record>, p: Prefix): seq<Record> {
    if recs == [] then []
    else if recs[0].prefix == p then Forgotten(recs[1..], p)
    else [recs[0]] + Forgotten(recs[1..], p)
  }

  /** The part of PinServer that lets go of the old target. */
  function Retarget(k: Kernel, m: Mgr, server: Addr): (Kernel, Mgr) {
    if m.server == Some(server) then (k, m)
    else
      var m' := m.(server := Some(server), pinholeGW := None);
      if m.server.Some? && m.pinholeGW.Some? then
        var prior := Host(m.server.value);
        (DelRoute(k, prior, Hop(m.pinholeGW.value, "")).0, m'.(installed := Forgotten(m.installed, prior)))
      else (k, m')
  }

  function PinServer(k: Kernel, m: Mgr, server: Option<Addr>, gateway: Option<Addr>)
    : (Kernel, Mgr, Option<RouteError>)
  {
    if server.None? then (k, m, Some(InvalidServer))
    else
      var (k', m') := Retarget(k, m, server.value);
      RefreshServerPinhole(k', m', gateway)
  }

  // ------------------------------------------------------------- classes

  class Runner {
    var st: Kernel

    constructor (st: Kernel)
      ensures this.st == st
    {
      this.st := st;
    }

    method Add(p: Prefix, hop: Hop) returns (ok: bool)
      modifies this
      ensures (st, ok) == AddRoute(old(st), p, hop)
    {
      var faulty := |st.faults| > 0 && st.faults[0];
      st := st.(faults := if |st.faults| == 0 then [] else st.faults[1..]);
      ok := !faulty && Masked(p) !in st.table;
      if ok {
        st := st.(table := st.table[Masked(p) := hop]);
      }
    }

    method Del(p: Prefix, hop: Hop) returns (ok: bool)
      modifies this
      ensures (st, ok) == DelRoute(old(st), p, hop)
    {
      ok := Masked(p) in st.table && st.table[Masked(p)] == hop;
      if ok {
        st := st.(table := st.table - {Masked(p)});
      }
    }
  }

  class Manager {
    const runner: Runner
    const iface: string
    const tunGW: Option<Addr>
    var server: Option<Addr>
    var pinholeGW: Option<Addr>
    var installed: seq<Record>

    function State(): Mgr
      reads this
    {
      Mgr(iface, tunGW, server, pinholeGW, installed)
    }

    constructor (runner: Runner, iface: string, tunGW: Option<Addr>, server: Option<Addr>)
      ensures this.runner == runner && State() == Mgr(iface, tunGW, server, None, [])
    {
      this.runner, this.iface, this.tunGW, this.server := runner, iface, tunGW, server;
      pinholeGW, installed := None, [];
    }

    method AddRecorded(p: Prefix, hop: Hop) returns (ok: bool)
      modifies this`installed, runner
      ensures (runner.st, ok) == AddRoute(old(runner.st), p, hop)
      ensures installed == if ok then old(installed) + [Record(p, hop)] else old(installed)
    {
      ok := runner.Add(p, hop);
      if ok {
        installed := installed + [Record(p, hop)];
      }
    }

    method RollbackAll()
      modifies this`installed, runner
      ensures runner.st == Rollback(old(runner.st), old(installed))
      ensures installed == []
    {
      var i := |installed|;
      assert installed[..i] == installed;
      while i > 0
        invariant 0 <= i <= |installed| && installed == old(installed)
        invariant Rollback(runner.st, installed[..i]) == Rollback(old(runner.st), old(installed))
      {
        i := i - 1;
        assert installed[..i + 1][..i] == installed[..i];
        var _ := runner.Del(installed[i].prefix, installed[i].hop);
      }
      installed := [];
    }

    method AddEach(ps: seq<Prefix>, hop: Hop) returns (ok: bool)
      modifies this`installed, runner
      ensures (runner.st, installed, ok) == AddAll(old(runner.st), old(installed), ps, hop)
    {
      for i := 0 to |ps|
        invariant AddAll(runner.st, installed, ps[i..], hop) == AddAll(old(runner.st), old(installed), ps, hop)
      {
        ok := AddRecorded(ps[i], hop);
        if !ok {
          return;
        }
      }
      ok := true;
    }

    method InstallRoutes(gateway: Option<Addr>, cidrs: seq<Cidr>) returns (error: Option<RouteError>)
      modifies this`pinholeGW, this`installed, runner
      ensures (runner.st, State(), error) == Install(old(runner.st), old(State()), gateway, cidrs)
    {
      error := InstallGuard(State());
      if error.Some? {
        return;
      }
      if gateway.None? {
        return Some(NoDefaultGateway);
      }
      pinholeGW := gateway;
      var ok := AddRecorded(Host(server.value), Hop(gateway.value, ""));
      if !ok {
        return Some(PinholeRefused);
      }
      var hop := Hop(tunGW.value, iface);
      ghost var k1, recs1 := runner.st, installed;
      for i := 0 to |cidrs|
        invariant pinholeGW == gateway && server == old(server)
        invariant PushAll(runner.st, installed, cidrs[i..], hop) == PushAll(k1, recs1, cidrs, hop)
      {
        if cidrs[i].Unparsable? {
          RollbackAll();
          return Some(BadPush);
        }
        if cidrs[i].p.addr.V4? {
          ok := AddEach(ExpandDefault(cidrs[i].p), hop);
          if !ok {
            RollbackAll();
            return Some(PushRefused);
          }
        }
      }
      error := None;
    }

    method RemoveAll()
      modifies this`installed, runner
      ensures (runner.st, State()) == Remove(old(runner.st), old(State()))
    {
      RollbackAll();
    }

    method RepointRecord(p: Prefix, gw: Addr)
      modifies this`installed
      ensures installed == Repointed(old(installed), p, gw)
    {
      for i := 0 to |installed|
        invariant installed == old(installed)
        invariant Repointed(installed, p, gw) == installed[..i] + Repointed(installed[i..], p, gw)
      {
        RepointedNext(installed, i, p, gw);
        if installed[i].prefix == p {
          installed := installed[i := Record(p, Hop(gw, installed[i].hop.iface))];
          return;
        }
      }
      installed := installed + [Record(p, Hop(gw, ""))];
    }

    method Refresh(gateway: Option<Addr>) returns (error: Option<RouteError>)
      modifies this`pinholeGW, this`installed, runner
      ensures (runner.st, State(), error) == RefreshServerPinhole(old(runner.st), old(State()), gateway)
    {
      if server.None? {
        return Some(NoServer);
      }
      if gateway.None? {
        return Some(NoDefaultGateway);
      }
      if gateway == tunGW {
        return Some(GatewayIsTunnel);
      }
      var pinhole := Host(server.value);
      if pinholeGW.Some? {
        var _ := runner.Del(pinhole, Hop(pinholeGW.value, ""));
      }
      var ok := runner.Add(pinhole, Hop(gateway.value, ""));
      if !ok {
        return Some(PinholeLost);
      }
      pinholeGW := gateway;
      RepointRecord(pinhole, gateway.value);
      error := None;
    }

    method ForgetInstalled(p: Prefix)
      modifies this`installed
      ensures installed == Forgotten(old(installed), p)
    {
      var kept: seq<Record> := [];
      for i := 0 to |installed|
        invariant installed == old(installed)
        invariant Forgotten(installed, p) == kept + Forgotten(installed[i..], p)
      {
        if installed[i].prefix != p {
          kept := kept + [installed[i]];
        }
      }
      installed := kept;
    }

    method Pin(target: Option<Addr>, gateway: Option<Addr>) returns (error: Option<RouteError>)
      modifies this`server, this`pinholeGW, this`installed, runner
      ensures (runner.st, State(), error) == PinServer(old(runner.st), old(State()), target, gateway)
    {
      if target.None? {
        return Some(InvalidServer);
      }
      if target != server {
        if server.Some? && pinholeGW.Some? {
          var _ := runner.Del(Host(server.value), Hop(pinholeGW.value, ""));
          ForgetInstalled(Host(server.value));
        }
        server := target;
        pinholeGW := None;
      }
      error := Refresh(gateway);
    }
  }
}
