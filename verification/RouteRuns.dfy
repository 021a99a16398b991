/** What the route manager guarantees over whole runs: one Install, then any mix
    of re-pinning, routes dropped by the OS and changes of the host's own table,
    then Remove. */
module RouteRuns {
  import opened Base
  import opened Prefixes
  import opened Route

  predicate RecordedAs(recs: seq<Record>, p: Prefix, hop: Hop) {
    exists r :: r in recs && Masked(r.prefix) == p && r.hop == hop
  }

  ghost predicate Distinct(recs: seq<Record>) {
    forall i, j :: 0 <= i < j < |recs| ==> Masked(recs[i].prefix) != Masked(recs[j].prefix)
  }

  /** The host's routes `h` stand untouched in the kernel table `t`, every other
      route is recorded with its exact next hop and interface, and no record
      matches one of the host's routes. */
  ghost predicate Owned(h: Table, t: Table, recs: seq<Record>) {
    && Canonical(t)
    && (forall p :: p in h ==> p in t && t[p] == h[p])
    && (forall p :: p in t && p !in h ==> RecordedAs(recs, p, t[p]))
    && (forall r :: r in recs && Masked(r.prefix) in h ==> h[Masked(r.prefix)] != r.hop)
    && Distinct(recs)
  }

  /** Owned, with every recorded route actually present. */
  ghost predicate AllPresent(h: Table, t: Table, recs: seq<Record>) {
    Owned(h, t, recs) && forall r :: r in recs ==> Masked(r.prefix) in t
  }

  // ------------------------------------------------------------- rollback

  lemma OnlyRecord(recs: seq<Record>, r: Record, s: Record)
    requires Distinct(recs) && r in recs && s in recs && Masked(r.prefix) == Masked(s.prefix)
    ensures r == s
  {
    var i :| 0 <= i < |recs| && recs[i] == r;
    var j :| 0 <= j < |recs| && recs[j] == s;
  }

  /** Deleting a recorded route through its record really removes it, unless the
      host has a route of its own in that place, which stays. */
  lemma DeleteRecorded(h: Table, k: Kernel, recs: seq<Record>, r: Record)
    requires Owned(h, k.table, recs) && r in recs
    ensures var p := Masked(r.prefix);
      DelRoute(k, r.prefix, r.hop).0 == if p in h then k else k.(table := k.table - {p})
    ensures Owned(h, DelRoute(k, r.prefix, r.hop).0.table, recs)
  {
    var p := Masked(r.prefix);
    if p in h {
      return;
    }
    if p in k.table {
      var s :| s in recs && Masked(s.prefix) == p && s.hop == k.table[p];
      OnlyRecord(recs, r, s);
    } else {
      assert k.table - {p} == k.table;
    }
    var t' := k.table - {p};
    forall q | q in t' && q !in h ensures RecordedAs(recs, q, t'[q]) {
      assert RecordedAs(recs, q, k.table[q]);
    }
  }

  lemma DropRecord(h: Table, t: Table, recs: seq<Record>, kept: seq<Record>, p: Prefix)
    requires Owned(h, t, recs) && (p in t ==> p in h) && Distinct(kept)
    requires forall r :: r in kept ==> r in recs
    requires forall r :: r in recs && Masked(r.prefix) != p ==> r in kept
    ensures Owned(h, t, kept)
  {
    forall q | q in t && q !in h ensures RecordedAs(kept, q, t[q]) {
      assert RecordedAs(recs, q, t[q]);
    }
  }

  /** Rolling back leaves exactly the host's own table. */
  lemma {:induction false} RollbackRestores(h: Table, k: Kernel, recs: seq<Record>)
    requires Owned(h, k.table, recs)
    ensures Rollback(k, recs).table == h
    decreases |recs|
  {
    if recs == [] {
      assert forall p :: p in k.table ==> p in h;
    } else {
      var last := recs[|recs| - 1];
      var front := recs[..|recs| - 1];
      DeleteRecorded(h, k, recs, last);
      assert recs == front + [last];
      var k' := DelRoute(k, last.prefix, last.hop).0;
      DropRecord(h, k'.table, recs, front, Masked(last.prefix));
      RollbackRestores(h, k', front);
    }
  }

  // -------------------------------------------------------------- install

  lemma AddPresent(h: Table, k: Kernel, recs: seq<Record>, p: Prefix, hop: Hop)
    requires AllPresent(h, k.table, recs) && AddRoute(k, p, hop).1
    ensures AllPresent(h, AddRoute(k, p, hop).0.table, recs + [Record(p, hop)])
  {
    var t', recs' := AddRoute(k, p, hop).0.table, recs + [Record(p, hop)];
    MaskedTwice(p);
    forall q | q in t' && q !in h ensures RecordedAs(recs', q, t'[q]) {
      if q == Masked(p) {
        assert Record(p, hop) in recs';
      } else {
        var r :| r in recs && Masked(r.prefix) == q && r.hop == k.table[q];
        assert r in recs';
      }
    }
    forall i | 0 <= i < |recs| ensures Masked(recs[i].prefix) != Masked(p) {
      assert recs[i] in recs;
    }
  }

  lemma {:induction false} AddAllPresent(h: Table, k: Kernel, recs: seq<Record>, ps: seq<Prefix>, hop: Hop)
    requires AllPresent(h, k.table, recs)
    ensures var (k', recs', ok) := AddAll(k, recs, ps, hop); AllPresent(h, k'.table, recs')
    decreases |ps|
  {
    if ps != [] && AddRoute(k, ps[0], hop).1 {
      AddPresent(h, k, recs, ps[0], hop);
      AddAllPresent(h, AddRoute(k, ps[0], hop).0, recs + [Record(ps[0], hop)], ps[1..], hop);
    }
  }

  lemma {:induction false} PushAllPresent(h: Table, k: Kernel, recs: seq<Record>, cidrs: seq<Cidr>, hop: Hop)
    requires AllPresent(h, k.table, recs)
    ensures var (k', recs', e) := PushAll(k, recs, cidrs, hop); AllPresent(h, k'.table, recs')
    decreases |cidrs|
  {
    if cidrs != [] && cidrs[0].Parsed? {
      AddAllPresent(h, k, recs, Wanted(cidrs[0]), hop);
      var (k', recs', ok) := AddAll(k, recs, Wanted(cidrs[0]), hop);
      if ok {
        PushAllPresent(h, k', recs', cidrs[1..], hop);
      }
    }
  }

  /** Every prefix the pushes ask for, in order. */
  function WantedAll(cidrs: seq<Cidr>): seq<Prefix> {
    if cidrs == [] then [] else Wanted(cidrs[0]) + WantedAll(cidrs[1..])
  }

  /** The routes that send all of `ps` to one next hop. */
  function Via(ps: seq<Prefix>, hop: Hop): (r: Table)
    ensures forall q :: q in r ==> r[q] == hop
  {
    if ps == [] then map[] else map[Masked(ps[0]) := hop] + Via(ps[1..], hop)
  }

  lemma {:induction false} ViaKeys(ps: seq<Prefix>, hop: Hop, p: Prefix)
    ensures p in Via(ps, hop) <==> exists i :: 0 <= i < |ps| && Masked(ps[i]) == p
  {
    if ps != [] {
      ViaKeys(ps[1..], hop, p);
      if p in Via(ps[1..], hop) {
        var i :| 0 <= i < |ps[1..]| && Masked(ps[1..][i]) == p;
        assert Masked(ps[i + 1]) == p;
      }
    }
  }

  /** The records AddRoute leaves behind, one per prefix. */
  function Records(ps: seq<Prefix>, hop: Hop): seq<Record> {
    if ps == [] then [] else [Record(ps[0], hop)] + Records(ps[1..], hop)
  }

  lemma MergeAssoc(a: Table, b: Table, c: Table)
    ensures (a + b) + c == a + (b + c)
  {
  }

  lemma {:induction false} ViaConcat(ps: seq<Prefix>, qs: seq<Prefix>, hop: Hop)
    ensures Via(ps, hop) + Via(qs, hop) == Via(ps + qs, hop)
    ensures Records(ps + qs, hop) == Records(ps, hop) + Records(qs, hop)
  {
    if ps == [] {
      assert ps + qs == qs;
      assert Via(ps, hop) + Via(qs, hop) == Via(qs, hop);
    } else {
      assert (ps + qs)[1..] == ps[1..] + qs;
      ViaConcat(ps[1..], qs, hop);
      MergeAssoc(map[Masked(ps[0]) := hop], Via(ps[1..], hop), Via(qs, hop));
    }
  }

  lemma UpdateIsMerge(t: Table, p: Prefix, hop: Hop)
    ensures t[p := hop] == t + map[p := hop]
  {
  }

  lemma {:induction false} AddAllExact(k: Kernel, recs: seq<Record>, ps: seq<Prefix>, hop: Hop)
    requires AddAll(k, recs, ps, hop).2
    ensures AddAll(k, recs, ps, hop).0.table == k.table + Via(ps, hop)
    ensures AddAll(k, recs, ps, hop).1 == recs + Records(ps, hop)
    ensures Via(ps, hop).Keys !! k.table.Keys
    decreases |ps|
  {
    if ps == [] {
      assert k.table + Via(ps, hop) == k.table;
    } else {
      var p, rest := ps[0], ps[1..];
      AddAllExact(AddRoute(k, p, hop).0, recs + [Record(p, hop)], rest, hop);
      UpdateIsMerge(k.table, Masked(p), hop);
      MergeAssoc(k.table, map[Masked(p) := hop], Via(rest, hop));
    }
  }

  lemma {:induction false} PushAllExact(k: Kernel, recs: seq<Record>, cidrs: seq<Cidr>, hop: Hop)
    requires PushAll(k, recs, cidrs, hop).2.None?
    ensures PushAll(k, recs, cidrs, hop).0.table == k.table + Via(WantedAll(cidrs), hop)
    ensures Via(WantedAll(cidrs), hop).Keys !! k.table.Keys
    decreases |cidrs|
  {
    if cidrs == [] {
      assert k.table + Via([], hop) == k.table;
    } else {
      var ps, rest := Wanted(cidrs[0]), WantedAll(cidrs[1..]);
      AddAllExact(k, recs, ps, hop);
      var (k1, recs1, _) := AddAll(k, recs, ps, hop);
      PushAllExact(k1, recs1, cidrs[1..], hop);
      ViaConcat(ps, rest, hop);
      MergeAssoc(k.table, Via(ps, hop), Via(rest, hop));
    }
  }

  lemma {:induction false} PushAllRecords(k: Kernel, recs: seq<Record>, cidrs: seq<Cidr>, hop: Hop)
    requires PushAll(k, recs, cidrs, hop).2.None?
    ensures PushAll(k, recs, cidrs, hop).1 == recs + Records(WantedAll(cidrs), hop)
    ensures forall c :: c in cidrs ==> c.Parsed?
    decreases |cidrs|
  {
    if cidrs != [] {
      var ps, rest := Wanted(cidrs[0]), WantedAll(cidrs[1..]);
      AddAllExact(k, recs, ps, hop);
      var (k1, recs1, _) := AddAll(k, recs, ps, hop);
      PushAllRecords(k1, recs1, cidrs[1..], hop);
      ViaConcat(ps, rest, hop);
      Assoc(recs, Records(ps, hop), Records(rest, hop));
    }
  }

  /** A manager that has not installed anything yet. */
  predicate Fresh(m: Mgr) {
    m.installed == [] && m.pinholeGW == None
  }

  /** A failed Install leaves the table as it found it. */
  lemma FailedInstallRestores(k: Kernel, m: Mgr, gateway: Option<Addr>, cidrs: seq<Cidr>)
    requires Canonical(k.table) && Fresh(m)
    requires Install(k, m, gateway, cidrs).2.Some?
    ensures Install(k, m, gateway, cidrs).0.table == k.table
    ensures Install(k, m, gateway, cidrs).1.installed == []
  {
    if InstallGuard(m).None? && gateway.Some? {
      var pin, tun := Hop(gateway.value, ""), Hop(m.tunGW.value, m.iface);
      var p := Host(m.server.value);
      var (k1, ok) := AddRoute(k, p, pin);
      if ok {
        AddPresent(k.table, k, [], p, pin);
        assert m.installed + [Record(p, pin)] == [] + [Record(p, pin)];
        PushAllPresent(k.table, k1, [] + [Record(p, pin)], cidrs, tun);
        var (k2, recs, _) := PushAll(k1, [] + [Record(p, pin)], cidrs, tun);
        RollbackRestores(k.table, k2, recs);
      }
    }
  }

  /** A successful Install is the pin-hole followed by successful pushes. */
  lemma InstallSplits(k: Kernel, m: Mgr, gateway: Option<Addr>, cidrs: seq<Cidr>)
    requires Fresh(m) && Install(k, m, gateway, cidrs).2.None?
    ensures InstallGuard(m).None? && gateway.Some?
    ensures var pin, tun := Hop(gateway.value, ""), Hop(m.tunGW.value, m.iface);
      var p := Host(m.server.value);
      var (k1, ok) := AddRoute(k, p, pin);
      var (k2, recs, e) := PushAll(k1, [Record(p, pin)], cidrs, tun);
      ok && e.None? && Install(k, m, gateway, cidrs) == (k2, m.(pinholeGW := gateway, installed := recs), None)
  {
    var r := Record(Host(m.server.value), Hop(gateway.value, ""));
    assert m.installed + [r] == [r];
    var (k1, ok) := AddRoute(k, r.prefix, r.hop);
    assert ok;
    var (k2, recs, e) := PushAll(k1, m.installed + [r], cidrs, Hop(m.tunGW.value, m.iface));
    assert e.None?;
  }

  lemma InstallPresent(k: Kernel, p: Prefix, pin: Hop, cidrs: seq<Cidr>, tun: Hop)
    requires Canonical(k.table) && AddRoute(k, p, pin).1
    ensures var (k2, recs, _) := PushAll(AddRoute(k, p, pin).0, [Record(p, pin)], cidrs, tun);
      AllPresent(k.table, k2.table, recs)
  {
    AddPresent(k.table, k, [], p, pin);
    assert [] + [Record(p, pin)] == [Record(p, pin)];
    PushAllPresent(k.table, AddRoute(k, p, pin).0, [Record(p, pin)], cidrs, tun);
  }

  lemma InstallTable(k: Kernel, m: Mgr, gateway: Option<Addr>, cidrs: seq<Cidr>)
    requires Fresh(m) && Install(k, m, gateway, cidrs).2.None?
    ensures InstallGuard(m).None? && gateway.Some?
    ensures var pin, tun := Hop(gateway.value, ""), Hop(m.tunGW.value, m.iface);
      var p, ps := Host(m.server.value), WantedAll(cidrs);
      && Install(k, m, gateway, cidrs).0.table == k.table + map[p := pin] + Via(ps, tun)
      && p !in k.table && Via(ps, tun).Keys !! k.table.Keys + {p}
  {
    InstallSplits(k, m, gateway, cidrs);
    var pin, tun := Hop(gateway.value, ""), Hop(m.tunGW.value, m.iface);
    var p := Host(m.server.value);
    HostIsMasked(m.server.value);
    UpdateIsMerge(k.table, p, pin);
    PushAllExact(AddRoute(k, p, pin).0, [Record(p, pin)], cidrs, tun);
  }

  /** A successful Install adds exactly the pin-hole through the original gateway
      and the wanted prefixes through the tunnel, none of which the host had, and
      records each of them. */
  lemma InstallMeaning(k: Kernel, m: Mgr, gateway: Option<Addr>, cidrs: seq<Cidr>)
    requires Canonical(k.table) && Fresh(m)
    requires Install(k, m, gateway, cidrs).2.None?
    ensures InstallGuard(m).None? && gateway.Some? && forall c :: c in cidrs ==> c.Parsed?
    ensures var (k', m', _) := Install(k, m, gateway, cidrs);
      var pin, tun := Hop(gateway.value, ""), Hop(m.tunGW.value, m.iface);
      var p, ps := Host(m.server.value), WantedAll(cidrs);
      && k'.table == k.table + map[p := pin] + Via(ps, tun)
      && p !in k.table && Via(ps, tun).Keys !! k.table.Keys + {p}
      && m' == m.(pinholeGW := gateway, installed := [Record(p, pin)] + Records(ps, tun))
      && AllPresent(k.table, k'.table, m'.installed)
  {
    InstallSplits(k, m, gateway, cidrs);
    InstallTable(k, m, gateway, cidrs);
    var pin, tun := Hop(gateway.value, ""), Hop(m.tunGW.value, m.iface);
    var p := Host(m.server.value);
    PushAllRecords(AddRoute(k, p, pin).0, [Record(p, pin)], cidrs, tun);
    InstallPresent(k, p, pin, cidrs, tun);
  }

  lemma {:induction false} TopBit(a: nat, k: nat)
    requires a < Pow2(k + 1)
    ensures Cleared(a, k) == if a < Pow2(k) then 0 else Pow2(k)
    decreases k
  {
    if k != 0 {
      TopBit(a / 2, k - 1);
    }
  }

  lemma TwoLengths()
    ensures Pow2(31) == 0x8000_0000
  {
    assert Pow2(8) == 256;
    assert Pow2(16) == 65536 by { assert Pow2(12) == 16 * Pow2(8); }
    assert Pow2(24) == 0x100_0000 by { assert Pow2(20) == 16 * Pow2(16); }
    assert Pow2(28) == 16 * Pow2(24);
  }

  /** The routes one push asks the kernel for. */
  function Asked(c: Cidr): set<Prefix> {
    if c.Unparsable? || c.p.addr.V6? then {}
    else if c.p.bits == 0 then {Prefix(V4(0), 1), Prefix(V4(0x8000_0000), 1)}
    else {Masked(c.p)}
  }

  /** A kernel that refuses only what it already has. */
  predicate Willing(k: Kernel) {
    forall i :: 0 <= i < |k.faults| ==> !k.faults[i]
  }

  lemma HalvesMasked()
    ensures Masked(LOWER_HALF) == LOWER_HALF && Masked(UPPER_HALF) == UPPER_HALF
  {
    TwoLengths();
    TopBit(0, 31);
    TopBit(0x8000_0000, 31);
  }

  lemma OneRouteFits(k: Kernel, p: Prefix, hop: Hop)
    requires Willing(k)
    ensures var (k', ok) := AddRoute(k, p, hop);
      && Willing(k') && (ok <==> Masked(p) !in k.table.Keys)
      && (ok ==> k'.table.Keys == k.table.Keys + {Masked(p)})
  {
  }

  lemma HalvesFit(k: Kernel, recs: seq<Record>, hop: Hop)
    requires Willing(k)
    ensures var (k', _, ok) := AddAll(k, recs, [LOWER_HALF, UPPER_HALF], hop);
      && (ok <==> {LOWER_HALF, UPPER_HALF} !! k.table.Keys)
      && (ok ==> Willing(k') && k'.table.Keys == k.table.Keys + {LOWER_HALF, UPPER_HALF})
  {
    HalvesMasked();
    var k1, recs1 := AddRoute(k, LOWER_HALF, hop).0, recs + [Record(LOWER_HALF, hop)];
    var k2 := AddRoute(k1, UPPER_HALF, hop).0;
    OneRouteFits(k, LOWER_HALF, hop);
    OneRouteFits(k1, UPPER_HALF, hop);
    assert [LOWER_HALF, UPPER_HALF][1..] == [UPPER_HALF] && [UPPER_HALF][1..] == [];
    assert AddAll(k1, recs1, [UPPER_HALF], hop).2 == AddRoute(k1, UPPER_HALF, hop).1;
    assert AddRoute(k1, UPPER_HALF, hop).1 ==> AddAll(k1, recs1, [UPPER_HALF], hop).0 == k2;
    var keys := k.table.Keys;
    assert {LOWER_HALF, UPPER_HALF} !! keys <==> LOWER_HALF !in keys && UPPER_HALF !in keys;
    assert LOWER_HALF != UPPER_HALF;
    assert AddRoute(k, LOWER_HALF, hop).1 ==>
      AddAll(k, recs, [LOWER_HALF, UPPER_HALF], hop) == AddAll(k1, recs1, [UPPER_HALF], hop);
  }

  lemma OnePushFits(k: Kernel, recs: seq<Record>, c: Cidr, hop: Hop)
    requires Willing(k)
    ensures var (k', _, ok) := AddAll(k, recs, Wanted(c), hop);
      && (ok <==> Asked(c) !! k.table.Keys)
      && (ok ==> Willing(k') && k'.table.Keys == k.table.Keys + Asked(c))
  {
    if c.Parsed? && c.p.addr.V4? {
      if c.p.bits == 0 {
        HalvesFit(k, recs, hop);
      } else {
        OneRouteFits(k, c.p, hop);
        assert Wanted(c) == [c.p] && Wanted(c)[1..] == [];
      }
    }
  }

  /** The pushes ask for new routes, and for none twice. */
  predicate AllNew(cidrs: seq<Cidr>, taken: set<Prefix>) {
    && (forall c :: c in cidrs ==> c.Parsed? && Asked(c) !! taken)
    && forall i, j :: 0 <= i < j < |cidrs| ==> Asked(cidrs[i]) !! Asked(cidrs[j])
  }

  lemma AllNewNext(c: Cidr, rest: seq<Cidr>, taken: set<Prefix>)
    ensures AllNew([c] + rest, taken) <==> c.Parsed? && Asked(c) !! taken && AllNew(rest, taken + Asked(c))
  {
    var cidrs := [c] + rest;
    assert forall j :: 0 < j < |cidrs| ==> cidrs[j] == rest[j - 1];
    if AllNew(cidrs, taken) {
      forall d | d in rest ensures d.Parsed? && Asked(d) !! taken + Asked(c) {
        var j :| 0 <= j < |rest| && rest[j] == d;
        assert cidrs[j + 1] == d && Asked(cidrs[0]) !! Asked(cidrs[j + 1]);
      }
      forall i, j | 0 <= i < j < |rest| ensures Asked(rest[i]) !! Asked(rest[j]) {
        assert Asked(cidrs[i + 1]) !! Asked(cidrs[j + 1]);
      }
    }
    if c.Parsed? && Asked(c) !! taken && AllNew(rest, taken + Asked(c)) {
      forall i, j | 0 <= i < j < |cidrs| ensures Asked(cidrs[i]) !! Asked(cidrs[j]) {
        assert cidrs[j] in rest;
      }
    }
  }

  lemma {:induction false} PushesFit(k: Kernel, recs: seq<Record>, cidrs: seq<Cidr>, hop: Hop)
    requires Willing(k)
    ensures PushAll(k, recs, cidrs, hop).2.None? <==> AllNew(cidrs, k.table.Keys)
    decreases |cidrs|
  {
    if cidrs != [] {
      var c, rest := cidrs[0], cidrs[1..];
      assert cidrs == [c] + rest;
      AllNewNext(c, rest, k.table.Keys);
      OnePushFits(k, recs, c, hop);
      var (k1, recs1, ok) := AddAll(k, recs, Wanted(c), hop);
      if ok {
        PushesFit(k1, recs1, rest, hop);
      }
    }
  }

  /** Over a kernel that refuses only what it already has, Install succeeds exactly
      if both addresses are IPv4, there is a default gateway, every push parses, and
      the routes asked for (the server's host route among them) are new and asked
      for only once. */
  lemma InstallSucceedsExactlyIf(k: Kernel, m: Mgr, gateway: Option<Addr>, cidrs: seq<Cidr>)
    requires Canonical(k.table) && Fresh(m) && Willing(k)
    ensures Install(k, m, gateway, cidrs).2.None? <==>
      && m.server.Some? && m.server.value.V4? && m.tunGW.Some? && m.tunGW.value.V4? && gateway.Some?
      && Host(m.server.value) !in k.table
      && (forall c :: c in cidrs ==> c.Parsed? && Asked(c) !! k.table.Keys + {Host(m.server.value)})
      && forall i, j :: 0 <= i < j < |cidrs| ==> Asked(cidrs[i]) !! Asked(cidrs[j])
  {
    if InstallGuard(m).None? && gateway.Some? {
      var r := Record(Host(m.server.value), Hop(gateway.value, ""));
      HostIsMasked(m.server.value);
      var (k1, ok) := AddRoute(k, r.prefix, r.hop);
      if ok {
        assert k1.table.Keys == k.table.Keys + {r.prefix};
        PushesFit(k1, m.installed + [r], cidrs, Hop(m.tunGW.value, m.iface));
      }
    }
  }

  // --------------------------------------------------------------- lookups

  /** The two halves cover every address, at length one. */
  lemma HalvesCover(a: IPv4, hop: Hop)
    ensures Longest(Via([LOWER_HALF, UPPER_HALF], hop), a) == 1
    ensures Lookup(Via([LOWER_HALF, UPPER_HALF], hop), a) == Some(hop)
  {
    TwoLengths();
    HalvesMasked();
    var t: Table := map[LOWER_HALF := hop] + map[UPPER_HALF := hop];
    TopBit(a, 31);
    assert [LOWER_HALF, UPPER_HALF][1..] == [UPPER_HALF] && [UPPER_HALF][1..] == [];
    assert Via([UPPER_HALF], hop) == map[UPPER_HALF := hop];
    assert Via([LOWER_HALF, UPPER_HALF], hop) == t;
    assert Key(a, 1) in t;
  }

  lemma SingleHost(a: IPv4, b: IPv4, hop: Hop)
    ensures var t: Table := map[Host(V4(b)) := hop];
      Longest(t, a) == (if a == b then 32 else -1)
  {
    var t: Table := map[Host(V4(b)) := hop];
    forall n: nat | n <= 32 ensures Key(a, n) in t <==> n == 32 && a == b {}
  }

  /** Longest-prefix lookup after a successful Install, for any pushes: the
      server's address goes to the original gateway; elsewhere the host keeps
      every address it routed by a longer prefix than any pushed one, and the
      tunnel takes the rest of what was pushed. */
  lemma LookupAfterInstall(k: Kernel, m: Mgr, gateway: Option<Addr>, cidrs: seq<Cidr>, a: IPv4)
    requires Canonical(k.table) && Fresh(m)
    requires Install(k, m, gateway, cidrs).2.None?
    ensures var t' := Install(k, m, gateway, cidrs).0.table;
      var tun := Hop(m.tunGW.value, m.iface);
      var pushed := Via(WantedAll(cidrs), tun);
      Lookup(t', a) ==
        if m.server == Some(V4(a)) then Some(Hop(gateway.value, ""))
        else if Longest(k.table, a) > Longest(pushed, a) then Lookup(k.table, a)
        else if Longest(pushed, a) >= 0 then Some(tun)
        else None
  {
    InstallMeaning(k, m, gateway, cidrs);
    var t' := Install(k, m, gateway, cidrs).0.table;
    var pin, tun := Hop(gateway.value, ""), Hop(m.tunGW.value, m.iface);
    var server: Table := map[Host(m.server.value) := pin];
    var pushed := Via(WantedAll(cidrs), tun);
    LookupOfMerge(k.table + server, pushed, a);
    LookupOfMerge(k.table, server, a);
    SingleHost(a, m.server.value.a, pin);
    if m.server == Some(V4(a)) {
      HostRouteWins(t', a);
    }
  }

  /** A pushed IPv4 prefix takes `a` along, at its own length; a default route
      counts as one bit long. */
  ghost predicate TakesAlong(c: Cidr, a: IPv4, len: int) {
    && c.Parsed? && c.p.addr.V4? && Covers(Masked(c.p), a)
    && len <= if c.p.bits == 0 then 1 else c.p.bits
  }

  lemma {:induction false} WantedIn(cidrs: seq<Cidr>, p: Prefix)
    ensures p in WantedAll(cidrs) <==> exists c :: c in cidrs && p in Wanted(c)
  {
    if cidrs != [] {
      WantedIn(cidrs[1..], p);
      assert cidrs == [cidrs[0]] + cidrs[1..];
    }
  }

  lemma HalfOf(a: IPv4) returns (h: Prefix)
    ensures h in [LOWER_HALF, UPPER_HALF] && Masked(h) == Key(a, 1)
    ensures Masked(LOWER_HALF).bits == 1 && Masked(UPPER_HALF).bits == 1
  {
    TwoLengths();
    HalvesMasked();
    TopBit(a, 31);
    h := if a < Pow2(31) then LOWER_HALF else UPPER_HALF;
  }

  lemma HalfTakesAlong(a: IPv4) returns (c: Cidr)
    ensures c in [Parsed(LOWER_HALF), Parsed(UPPER_HALF)] && TakesAlong(c, a, 1)
  {
    var h := HalfOf(a);
    c := Parsed(h);
    MaskedTwice(h);
    CoversIsKey(Masked(h), a);
  }

  lemma AllCleared(a: IPv4)
    ensures Cleared(a, 32) == 0
  {
    Pow2Of32();
    ClearedMeaning(a, 32);
    DivUnique(a, TWO_32, 0, a);
  }

  lemma DefaultCovers(p: Prefix, a: IPv4)
    requires p.addr.V4? && p.bits == 0
    ensures Covers(Masked(p), a)
  {
    AllCleared(a);
    AllCleared(p.addr.a);
    MaskedTwice(p);
    CoversIsKey(Masked(p), a);
  }

  /** One push wants a route for `a` as long as `len` or longer exactly if it takes
      `a` along at that length. */
  lemma WantedMatches(c: Cidr, a: IPv4, len: nat)
    requires len <= 32
    ensures TakesAlong(c, a, len) <==>
      exists p, n: nat :: p in Wanted(c) && len <= n <= 32 && Masked(p) == Key(a, n)
  {
    if c.Parsed? && c.p.addr.V4? {
      if c.p.bits == 0 {
        DefaultCovers(c.p, a);
        var h := HalfOf(a);
        if len <= 1 {
          assert h in Wanted(c) && Masked(h) == Key(a, 1);
        }
      } else {
        MaskedTwice(c.p);
        CoversIsKey(Masked(c.p), a);
        if TakesAlong(c, a, len) {
          assert c.p in Wanted(c) && Masked(c.p) == Key(a, c.p.bits);
        }
      }
    }
  }

  /** The longest match among the pushes, seen from the pushes. */
  lemma LongestPushed(cidrs: seq<Cidr>, hop: Hop, a: IPv4, len: nat)
    requires len <= 32
    ensures Longest(Via(WantedAll(cidrs), hop), a) >= len <==> exists c :: c in cidrs && TakesAlong(c, a, len)
  {
    var t := Via(WantedAll(cidrs), hop);
    if c :| c in cidrs && TakesAlong(c, a, len) {
      WantedMatches(c, a, len);
      var p, n: nat :| p in Wanted(c) && len <= n <= 32 && Masked(p) == Key(a, n);
      WantedIn(cidrs, p);
      var i :| 0 <= i < |WantedAll(cidrs)| && WantedAll(cidrs)[i] == p;
      ViaKeys(WantedAll(cidrs), hop, Key(a, n));
      assert Key(a, n) in t;
    }
    var m := Longest(t, a);
    if m >= len {
      ViaKeys(WantedAll(cidrs), hop, Key(a, m));
      var i :| 0 <= i < |WantedAll(cidrs)| && Masked(WantedAll(cidrs)[i]) == Key(a, m);
      WantedIn(cidrs, WantedAll(cidrs)[i]);
      var c :| c in cidrs && WantedAll(cidrs)[i] in Wanted(c);
      WantedMatches(c, a, len);
    }
  }

  /** Where traffic goes after a successful Install, in terms of what was pushed:
      to the tunnel exactly if a pushed IPv4 prefix covers the address at a length
      (one for a default route) the host does not beat; the server's own address
      goes to the original gateway, and every other address where it went before. */
  lemma PushedTrafficTunnels(k: Kernel, m: Mgr, gateway: Option<Addr>, cidrs: seq<Cidr>, a: IPv4)
    requires Canonical(k.table) && Fresh(m) && Install(k, m, gateway, cidrs).2.None?
    ensures m.server.Some? && m.tunGW.Some? && gateway.Some?
    ensures var t' := Install(k, m, gateway, cidrs).0.table;
      var host := Longest(k.table, a);
      Lookup(t', a) ==
        if m.server == Some(V4(a)) then Some(Hop(gateway.value, ""))
        else if exists c :: c in cidrs && TakesAlong(c, a, if host < 0 then 0 else host) then
          Some(Hop(m.tunGW.value, m.iface))
        else Lookup(k.table, a)
  {
    LookupAfterInstall(k, m, gateway, cidrs, a);
    InstallMeaning(k, m, gateway, cidrs);
    var tun, host := Hop(m.tunGW.value, m.iface), Longest(k.table, a);
    LongestPushed(cidrs, tun, a, if host < 0 then 0 else host);
  }

  /** The host cannot have had one of the halves: adding it would have failed. */
  lemma NoHostHalf(k: Kernel, m: Mgr, gateway: Option<Addr>, cidrs: seq<Cidr>, a: IPv4)
    requires Canonical(k.table) && Fresh(m) && WantedAll(cidrs) == [LOWER_HALF, UPPER_HALF]
    requires Install(k, m, gateway, cidrs).2.None?
    ensures Longest(k.table, a) != 1
  {
    InstallMeaning(k, m, gateway, cidrs);
    HalvesCover(a, Hop(m.tunGW.value, m.iface));
    assert Key(a, 1) in Via(WantedAll(cidrs), Hop(m.tunGW.value, m.iface));
    assert Key(a, 1) !in k.table;
  }

  lemma HalvesLookup(k: Kernel, m: Mgr, gateway: Option<Addr>, cidrs: seq<Cidr>, a: IPv4)
    requires Canonical(k.table) && Fresh(m) && WantedAll(cidrs) == [LOWER_HALF, UPPER_HALF]
    requires Install(k, m, gateway, cidrs).2.None?
    ensures Lookup(Install(k, m, gateway, cidrs).0.table, a) ==
      if m.server == Some(V4(a)) then Some(Hop(gateway.value, ""))
      else if Longest(k.table, a) <= 0 then Some(Hop(m.tunGW.value, m.iface))
      else Lookup(k.table, a)
  {
    LookupAfterInstall(k, m, gateway, cidrs, a);
    HalvesCover(a, Hop(m.tunGW.value, m.iface));
    NoHostHalf(k, m, gateway, cidrs, a);
  }

  lemma WantedOne(dflt: Prefix)
    requires dflt.bits == 0 && dflt.addr.V4?
    ensures WantedAll([Parsed(dflt)]) == [LOWER_HALF, UPPER_HALF]
  {
    assert [Parsed(dflt)][1..] == [];
  }

  /** A pushed default route: the server stays reachable through the original
      gateway, every address the host reached only by its default route (or not
      at all) goes to the tunnel, and every more specific host route is left
      alone. */
  lemma FullTunnelLookup(k: Kernel, m: Mgr, gateway: Option<Addr>, dflt: Prefix, a: IPv4)
    requires Canonical(k.table) && Fresh(m) && dflt.bits == 0 && dflt.addr.V4?
    requires Install(k, m, gateway, [Parsed(dflt)]).2.None?
    ensures Lookup(Install(k, m, gateway, [Parsed(dflt)]).0.table, a) ==
      if m.server == Some(V4(a)) then Some(Hop(gateway.value, ""))
      else if Longest(k.table, a) <= 0 then Some(Hop(m.tunGW.value, m.iface))
      else Lookup(k.table, a)
  {
    WantedOne(dflt);
    HalvesLookup(k, m, gateway, [Parsed(dflt)], a);
  }

  // ------------------------------------------------------------------ runs

  /** The kernel, the manager, and the part of the table that is the host's. */
  datatype World = World(k: Kernel, m: Mgr, host: Table)

  datatype Event =
    | Pin(target: Option<Addr>, gateway: Option<Addr>)
    | Refresh(gateway: Option<Addr>)
    | OsDrop(p: Prefix)                 // the OS flushes one of our routes
    | HostGains(p: Prefix, hop: Hop)    // the host's table changes on its own,
    | HostLoses(p: Prefix)              // a new default gateway for instance

  /** `servers` are the addresses the server ever has during the run. A route the
      host gains is not one the manager has on record with the same next hop. */
  predicate Enabled(w: World, e: Event, servers: set<Addr>) {
    match e
    case Pin(target, _) => target.Some? ==> target.value in servers
    case Refresh(_) => true
    case OsDrop(p) => p in w.k.table && p !in w.host
    case HostGains(p, hop) => Masked(p) == p && p !in w.k.table && !RecordedAs(w.m.installed, p, hop)
    case HostLoses(p) => p in w.host
  }

  function Step(w: World, e: Event): World {
    match e
    case Pin(target, gateway) =>
      var (k, m, _) := PinServer(w.k, w.m, target, gateway);
      w.(k := k, m := m)
    case Refresh(gateway) =>
      var (k, m, _) := RefreshServerPinhole(w.k, w.m, gateway);
      w.(k := k, m := m)
    case OsDrop(p) => w.(k := w.k.(table := w.k.table - {p}))
    case HostGains(p, hop) => w.(k := w.k.(table := w.k.table[p := hop]), host := w.host[p := hop])
    case HostLoses(p) => w.(k := w.k.(table := w.k.table - {p}), host := w.host - {p})
  }

  predicate Runs(w: World, es: seq<Event>, servers: set<Addr>)
    decreases |es|
  {
    es == [] || (Enabled(w, es[0], servers) && Runs(Step(w, es[0]), es[1..], servers))
  }

  function Run(w: World, es: seq<Event>): World
    decreases |es|
  {
    if es == [] then w else Run(Step(w, es[0]), es[1..])
  }

  /** The only record for a server's host route is the pin-hole, with the gateway
      the manager remembers; and a remembered gateway means there is one. */
  ghost predicate PinholeKnown(m: Mgr, servers: set<Addr>) {
    && m.server.Some? && m.server.value in servers
    && (forall r, s :: r in m.installed && s in servers && r.prefix == Host(s) ==>
          m.server == Some(s) && m.pinholeGW.Some? && r.hop == Hop(m.pinholeGW.value, ""))
    && (m.pinholeGW.Some? ==> Record(Host(m.server.value), Hop(m.pinholeGW.value, "")) in m.installed)
  }

  ghost predicate Inv(w: World, servers: set<Addr>) {
    Owned(w.host, w.k.table, w.m.installed) && PinholeKnown(w.m, servers)
  }

  lemma {:induction false} ForgottenMeaning(recs: seq<Record>, p: Prefix)
    ensures forall r :: r in Forgotten(recs, p) <==> r in recs && r.prefix != p
    ensures Distinct(recs) ==> Distinct(Forgotten(recs, p))
  {
    if recs != [] {
      var rest := Forgotten(recs[1..], p);
      ForgottenMeaning(recs[1..], p);
      assert recs == [recs[0]] + recs[1..];
      if Distinct(recs) {
        forall i | 0 <= i < |rest| ensures Masked(rest[i].prefix) != Masked(recs[0].prefix) {
          assert rest[i] in recs[1..];
        }
      }
    }
  }

  /** The pin-hole's record is rewritten in place, or added if there is none. */
  lemma {:induction false} RepointedMeaning(recs: seq<Record>, p: Prefix, gw: Addr)
    requires Distinct(recs) && Masked(p) == p
    requires forall r :: r in recs && Masked(r.prefix) == p ==> r.prefix == p && r.hop.iface == ""
    ensures Distinct(Repointed(recs, p, gw))
    ensures forall r :: r in Repointed(recs, p, gw) <==>
                          r == Record(p, Hop(gw, "")) || (r in recs && r.prefix != p)
  {
    if recs != [] {
      var rest := recs[1..];
      assert recs == [recs[0]] + rest;
      assert recs[0] in recs;
      if recs[0].prefix == p {
        forall i | 0 <= i < |rest| ensures rest[i].prefix != p {
          assert Masked(recs[i + 1].prefix) != Masked(recs[0].prefix);
        }
      } else {
        RepointedMeaning(rest, p, gw);
        var tail := Repointed(rest, p, gw);
        forall i | 0 <= i < |tail| ensures Masked(tail[i].prefix) != Masked(recs[0].prefix) {
          assert tail[i] in tail;
          if tail[i] in rest {
            var j :| 0 <= j < |rest| && rest[j] == tail[i];
            assert recs[j + 1] == tail[i];
          }
        }
      }
    }
  }

  lemma OnlyPinhole(w: World, servers: set<Addr>, r: Record)
    requires Inv(w, servers) && r in w.m.installed && Masked(r.prefix) == Host(w.m.server.value)
    ensures w.m.pinholeGW.Some? && r == Record(Host(w.m.server.value), Hop(w.m.pinholeGW.value, ""))
  {
    MaskedHost(r.prefix, w.m.server.value);
  }

  /** The kernel once a refresh has let go of the old pin-hole. */
  function LetGo(w: World): Kernel
    requires w.m.server.Some?
  {
    if w.m.pinholeGW.Some? then DelRoute(w.k, Host(w.m.server.value), Hop(w.m.pinholeGW.value, "")).0 else w.k
  }

  /** Letting go of the old pin-hole: afterwards the kernel has no route of ours
      for the server's address. */
  lemma PinholeDeleted(w: World, servers: set<Addr>)
    requires Inv(w, servers)
    ensures var p := Host(w.m.server.value);
      var k1 := LetGo(w);
      && Owned(w.host, k1.table, w.m.installed)
      && (p in k1.table ==> p in w.host)
      && k1.table == (if w.m.pinholeGW.Some? && p !in w.host then w.k.table - {p} else w.k.table)
      && k1.faults == w.k.faults
  {
    var p := Host(w.m.server.value);
    HostIsMasked(w.m.server.value);
    if w.m.pinholeGW.Some? {
      DeleteRecorded(w.host, w.k, w.m.installed, Record(p, Hop(w.m.pinholeGW.value, "")));
    } else if p in w.k.table && p !in w.host {
      var r :| r in w.m.installed && Masked(r.prefix) == p && r.hop == w.k.table[p];
      OnlyPinhole(w, servers, r);
    }
  }

  /** A new pin-hole in the kernel, recorded where the old one was. */
  lemma RepointedOwns(h: Table, t: Table, recs: seq<Record>, p: Prefix, gw: Addr)
    requires Owned(h, t, recs) && Masked(p) == p && p !in t
    requires forall r :: r in recs && Masked(r.prefix) == p ==> r.prefix == p && r.hop.iface == ""
    ensures Owned(h, t[p := Hop(gw, "")], Repointed(recs, p, gw))
  {
    RepointedMeaning(recs, p, gw);
    var t', recs' := t[p := Hop(gw, "")], Repointed(recs, p, gw);
    forall q | q in t' && q !in h ensures RecordedAs(recs', q, t'[q]) {
      if q == p {
        assert Record(p, Hop(gw, "")) in recs';
      } else {
        assert RecordedAs(recs, q, t[q]);
        var r :| r in recs && Masked(r.prefix) == q && r.hop == t[q];
        assert r in recs';
      }
    }
  }

  lemma RefreshOutcome(w: World, gateway: Option<Addr>)
    requires RefreshServerPinhole(w.k, w.m, gateway).2.None?
    ensures w.m.server.Some? && gateway.Some?
    ensures var p, w' := Host(w.m.server.value), Step(w, Refresh(gateway));
      && p !in LetGo(w).table && w'.k.table == LetGo(w).table[p := Hop(gateway.value, "")]
      && w'.m == w.m.(pinholeGW := gateway, installed := Repointed(w.m.installed, p, gateway.value))
      && w'.host == w.host
  {
    HostIsMasked(w.m.server.value);
  }

  lemma RepointedKnown(m: Mgr, servers: set<Addr>, gw: Addr)
    requires PinholeKnown(m, servers) && Distinct(m.installed)
    requires var p := Host(m.server.value);
      Masked(p) == p && forall r :: r in m.installed && Masked(r.prefix) == p ==> r.prefix == p && r.hop.iface == ""
    ensures var recs := Repointed(m.installed, Host(m.server.value), gw);
      PinholeKnown(m.(pinholeGW := Some(gw), installed := recs), servers)
  {
    RepointedMeaning(m.installed, Host(m.server.value), gw);
  }

  /** A refresh that got through. */
  lemma RefreshedKeeps(w: World, servers: set<Addr>, gateway: Option<Addr>)
    requires Inv(w, servers) && RefreshServerPinhole(w.k, w.m, gateway).2.None?
    ensures Inv(Step(w, Refresh(gateway)), servers)
  {
    var p := Host(w.m.server.value);
    PinholeDeleted(w, servers);
    HostIsMasked(w.m.server.value);
    forall r | r in w.m.installed && Masked(r.prefix) == p ensures r.prefix == p && r.hop.iface == "" {
      OnlyPinhole(w, servers, r);
    }
    RefreshOutcome(w, gateway);
    RepointedOwns(w.host, LetGo(w).table, w.m.installed, p, gateway.value);
    RepointedKnown(w.m, servers, gateway.value);
  }

  lemma RefreshKeeps(w: World, servers: set<Addr>, gateway: Option<Addr>)
    requires Inv(w, servers)
    ensures Inv(Step(w, Refresh(gateway)), servers)
  {
    if RefreshServerPinhole(w.k, w.m, gateway).2.None? {
      RefreshedKeeps(w, servers, gateway);
    } else {
      PinholeDeleted(w, servers);
    }
  }

  lemma RetargetKeeps(w: World, servers: set<Addr>, target: Addr)
    requires Inv(w, servers) && target in servers
    ensures var (k', m') := Retarget(w.k, w.m, target); Inv(w.(k := k', m := m'), servers)
  {
    if w.m.server != Some(target) && w.m.pinholeGW.Some? {
      var p := Host(w.m.server.value);
      var (k', m') := Retarget(w.k, w.m, target);
      PinholeDeleted(w, servers);
      HostIsMasked(w.m.server.value);
      ForgottenMeaning(w.m.installed, p);
      forall r | r in w.m.installed && Masked(r.prefix) != p ensures r in m'.installed {}
      DropRecord(w.host, k'.table, w.m.installed, m'.installed, p);
    }
  }

  lemma OsDropKeeps(w: World, servers: set<Addr>, p: Prefix)
    requires Inv(w, servers) && Enabled(w, OsDrop(p), servers)
    ensures Inv(Step(w, OsDrop(p)), servers)
  {
    var t' := w.k.table - {p};
    forall q | q in t' && q !in w.host ensures RecordedAs(w.m.installed, q, t'[q]) {
      assert RecordedAs(w.m.installed, q, w.k.table[q]);
    }
  }

  lemma HostGainsKeeps(w: World, servers: set<Addr>, p: Prefix, hop: Hop)
    requires Inv(w, servers) && Enabled(w, HostGains(p, hop), servers)
    ensures Inv(Step(w, HostGains(p, hop)), servers)
  {
    var w' := Step(w, HostGains(p, hop));
    forall q | q in w'.k.table && q !in w'.host ensures RecordedAs(w.m.installed, q, w'.k.table[q]) {
      assert RecordedAs(w.m.installed, q, w.k.table[q]);
    }
  }

  lemma HostLosesKeeps(w: World, servers: set<Addr>, p: Prefix)
    requires Inv(w, servers) && Enabled(w, HostLoses(p), servers)
    ensures Inv(Step(w, HostLoses(p)), servers)
  {
    var w' := Step(w, HostLoses(p));
    forall q | q in w'.k.table && q !in w'.host ensures RecordedAs(w.m.installed, q, w'.k.table[q]) {
      assert RecordedAs(w.m.installed, q, w.k.table[q]);
    }
  }

  lemma StepKeeps(w: World, e: Event, servers: set<Addr>)
    requires Inv(w, servers) && Enabled(w, e, servers)
    ensures Inv(Step(w, e), servers)
  {
    match e
    case Pin(target, gateway) =>
      if target.Some? {
        RetargetKeeps(w, servers, target.value);
        var (k', m') := Retarget(w.k, w.m, target.value);
        RefreshKeeps(w.(k := k', m := m'), servers, gateway);
      }
    case Refresh(gateway) => RefreshKeeps(w, servers, gateway);
    case OsDrop(p) => OsDropKeeps(w, servers, p);
    case HostGains(p, hop) => HostGainsKeeps(w, servers, p, hop);
    case HostLoses(p) => HostLosesKeeps(w, servers, p);
  }

  lemma {:induction false} RunKeeps(w: World, es: seq<Event>, servers: set<Addr>)
    requires Inv(w, servers) && Runs(w, es, servers)
    ensures Inv(Run(w, es), servers)
    decreases |es|
  {
    if es != [] {
      StepKeeps(w, es[0], servers);
      RunKeeps(Step(w, es[0]), es[1..], servers);
    }
  }

  /** No pushed prefix is the host route of an address the server ever has. */
  ghost predicate PushesAvoid(cidrs: seq<Cidr>, servers: set<Addr>) {
    forall p, s :: p in WantedAll(cidrs) && s in servers ==> p != Host(s)
  }

  lemma {:induction false} RecordsMeaning(ps: seq<Prefix>, hop: Hop, r: Record)
    ensures r in Records(ps, hop) <==> r.prefix in ps && r.hop == hop
  {
    if ps != [] {
      RecordsMeaning(ps[1..], hop, r);
      assert ps == [ps[0]] + ps[1..];
    }
  }

  lemma InstallEstablishes(k: Kernel, m: Mgr, gateway: Option<Addr>, cidrs: seq<Cidr>, servers: set<Addr>)
    requires Canonical(k.table) && Fresh(m) && PushesAvoid(cidrs, servers)
    requires m.server.Some? ==> m.server.value in servers
    requires Install(k, m, gateway, cidrs).2.None?
    ensures Inv(World(Install(k, m, gateway, cidrs).0, Install(k, m, gateway, cidrs).1, k.table), servers)
  {
    InstallMeaning(k, m, gateway, cidrs);
    var m' := Install(k, m, gateway, cidrs).1;
    var pin, tun := Hop(gateway.value, ""), Hop(m.tunGW.value, m.iface);
    forall r | r in m'.installed
      ensures r == Record(Host(m.server.value), pin) || r.prefix in WantedAll(cidrs)
    {
      RecordsMeaning(WantedAll(cidrs), tun, r);
    }
    assert m'.installed[0] == Record(Host(m.server.value), pin);
  }

  /** No host route has been altered, every other kernel route is on record with its
      exact gateway and interface, and Remove would leave exactly the host's own
      table. */
  ghost predicate CleanAt(w: World) {
    && (forall p :: p in w.host ==> p in w.k.table && w.k.table[p] == w.host[p])
    && (forall p :: p in w.k.table && p !in w.host ==> RecordedAs(w.m.installed, p, w.k.table[p]))
    && Remove(w.k, w.m).0.table == w.host
    && Remove(w.k, w.m).1.installed == []
  }

  lemma OwnedIsClean(w: World)
    requires Owned(w.host, w.k.table, w.m.installed)
    ensures CleanAt(w)
  {
    RollbackRestores(w.host, w.k, w.m.installed);
  }

  /** Over every run of one successful Install and then any mix of re-pinning,
      refreshes, dropped routes and host changes, with AddRoute failing whenever
      it likes: no host route is ever altered, every other kernel route is on
      record with its exact gateway and interface, and Remove leaves exactly the
      host's own table. */
  lemma RunsLeaveNothingBehind(k: Kernel, m: Mgr, gateway: Option<Addr>, cidrs: seq<Cidr>,
                               es: seq<Event>, servers: set<Addr>)
    requires Canonical(k.table) && Fresh(m) && PushesAvoid(cidrs, servers)
    requires m.server.Some? ==> m.server.value in servers
    requires Install(k, m, gateway, cidrs).2.None?
    requires var (k1, m1, _) := Install(k, m, gateway, cidrs); Runs(World(k1, m1, k.table), es, servers)
    ensures var (k1, m1, _) := Install(k, m, gateway, cidrs);
      var w := Run(World(k1, m1, k.table), es);
      CleanAt(w)
  {
    var (k1, m1, _) := Install(k, m, gateway, cidrs);
    InstallEstablishes(k, m, gateway, cidrs, servers);
    RunKeeps(World(k1, m1, k.table), es, servers);
    OwnedIsClean(Run(World(k1, m1, k.table), es));
  }

  /** To the manager, a gained route it has on record is its own. */
  lemma GainedRecorded(w: World, p: Prefix, hop: Hop)
    requires Owned(w.host, w.k.table, w.m.installed) && Masked(p) == p && p !in w.k.table
    requires RecordedAs(w.m.installed, p, hop)
    ensures var w' := Step(w, HostGains(p, hop)); Remove(w'.k, w'.m).0.table == w.host != w'.host
  {
    var w' := Step(w, HostGains(p, hop));
    forall q | q in w'.k.table && q !in w.host ensures RecordedAs(w.m.installed, q, w'.k.table[q]) {
      assert q != p ==> RecordedAs(w.m.installed, q, w.k.table[q]);
    }
    assert p !in w.host;
    RollbackRestores(w.host, w'.k, w'.m.installed);
  }

  lemma GainedRoute(w: World, servers: set<Addr>, p: Prefix, hop: Hop)
    requires Inv(w, servers) && Masked(p) == p && p !in w.k.table
    ensures var w' := Step(w, HostGains(p, hop));
      && (CleanAt(w') <==> !RecordedAs(w.m.installed, p, hop))
      && Remove(w'.k, w'.m).0.table == if RecordedAs(w.m.installed, p, hop) then w.host else w'.host
  {
    if RecordedAs(w.m.installed, p, hop) {
      GainedRecorded(w, p, hop);
    } else {
      HostGainsKeeps(w, servers, p, hop);
      OwnedIsClean(Step(w, HostGains(p, hop)));
    }
  }

  /** What a run asks of the host's own changes, exactly: when the host gains a
      route at any point of it, all stays clean if and only if the manager has no
      record of that prefix with that next hop; with one, Remove takes the host's
      new route away. */
  lemma GainIsCleanExactlyIfUnrecorded(k: Kernel, m: Mgr, gateway: Option<Addr>, cidrs: seq<Cidr>,
                                       es: seq<Event>, servers: set<Addr>, p: Prefix, hop: Hop)
    requires Canonical(k.table) && Fresh(m) && PushesAvoid(cidrs, servers)
    requires m.server.Some? ==> m.server.value in servers
    requires Install(k, m, gateway, cidrs).2.None?
    requires var (k1, m1, _) := Install(k, m, gateway, cidrs); Runs(World(k1, m1, k.table), es, servers)
    requires var (k1, m1, _) := Install(k, m, gateway, cidrs);
      Masked(p) == p && p !in Run(World(k1, m1, k.table), es).k.table
    ensures var (k1, m1, _) := Install(k, m, gateway, cidrs);
      var w := Run(World(k1, m1, k.table), es);
      var w' := Step(w, HostGains(p, hop));
      && (CleanAt(w') <==> !RecordedAs(w.m.installed, p, hop))
      && Remove(w'.k, w'.m).0.table == if RecordedAs(w.m.installed, p, hop) then w.host else w'.host
  {
    var (k1, m1, _) := Install(k, m, gateway, cidrs);
    InstallEstablishes(k, m, gateway, cidrs, servers);
    RunKeeps(World(k1, m1, k.table), es, servers);
    GainedRoute(Run(World(k1, m1, k.table), es), servers, p, hop);
  }

  /** With the host's table unchanged over the run, lookup after Remove is lookup
      before Install, for every address. */
  lemma LookupRestored(k: Kernel, m: Mgr, gateway: Option<Addr>, cidrs: seq<Cidr>,
                       es: seq<Event>, servers: set<Addr>, a: IPv4)
    requires Canonical(k.table) && Fresh(m) && PushesAvoid(cidrs, servers)
    requires m.server.Some? ==> m.server.value in servers
    requires Install(k, m, gateway, cidrs).2.None?
    requires var (k1, m1, _) := Install(k, m, gateway, cidrs);
      && Runs(World(k1, m1, k.table), es, servers)
      && Run(World(k1, m1, k.table), es).host == k.table
    ensures var (k1, m1, _) := Install(k, m, gateway, cidrs);
      var w := Run(World(k1, m1, k.table), es);
      Lookup(Remove(w.k, w.m).0.table, a) == Lookup(k.table, a)
  {
    RunsLeaveNothingBehind(k, m, gateway, cidrs, es, servers);
  }

  /** What a pin that failed short of losing the pin-hole has done. */
  ghost predicate OnlyLetGo(k: Kernel, m: Mgr, k': Kernel, m': Mgr, target: Addr) {
    && (m.server == Some(target) ==> k' == k && m' == m)
    && k'.table.Keys <= k.table.Keys
    && forall p :: p in k.table && !(m.server.Some? && m.server != Some(target) && p == Host(m.server.value)) ==>
         p in k'.table && k'.table[p] == k.table[p]
  }

  lemma SkippedPin(k: Kernel, m: Mgr, target: Addr, gateway: Option<Addr>)
    requires var e := PinServer(k, m, Some(target), gateway).2; e.Some? && e.value != PinholeLost
    ensures var (k', m', _) := PinServer(k, m, Some(target), gateway); OnlyLetGo(k, m, k', m', target)
  {
    if m.server.Some? {
      HostIsMasked(m.server.value);
    }
  }

  /** PinServer succeeds exactly if there is a default gateway, not the tunnel's,
      the kernel takes the route, and the host has none of its own for the
      address. Whenever it reports success, the address about to be dialled is
      routed through the default gateway of that moment, never into the tunnel;
      and after any failure short of losing the pin-hole nothing has moved but the
      pin-hole of a server that was left. */
  lemma PinnedAddressIsReachable(w: World, servers: set<Addr>, target: Addr, gateway: Option<Addr>)
    requires Inv(w, servers) && target in servers && target.V4?
    ensures var (k', m', e) := PinServer(w.k, w.m, Some(target), gateway);
      && m'.server == Some(target)
      && (e.None? ==> gateway.Some? && gateway != w.m.tunGW
                      && Lookup(k'.table, target.a) == Some(Hop(gateway.value, "")))
      && (e.None? <==> && gateway.Some? && gateway != w.m.tunGW && Host(target) !in w.host
                       && !(w.k.faults != [] && w.k.faults[0]))
      && (e.Some? && e.value != PinholeLost ==> OnlyLetGo(w.k, w.m, k', m', target))
      && (e == Some(PinholeLost) ==> Host(target) in k'.table ==> Host(target) in w.host)
  {
    RetargetKeeps(w, servers, target);
    var (k1, m1) := Retarget(w.k, w.m, target);
    var w1 := w.(k := k1, m := m1);
    PinholeDeleted(w1, servers);
    HostIsMasked(target);
    var (k', _, e) := PinServer(w.k, w.m, Some(target), gateway);
    if e.Some? && e.value != PinholeLost {
      SkippedPin(w.k, w.m, target, gateway);
    }
    if e.None? {
      assert Host(target) in k'.table && k'.table[Host(target)] == Hop(gateway.value, "");
      HostRouteWins(k'.table, target.a);
    }
  }

  // ------------------------------------------------------ where it breaks

  /** Some record is for `p`, and every one that would delete `p` names `iface`. */
  ghost predicate Claimed(recs: seq<Record>, p: Prefix, iface: string) {
    && (exists r :: r in recs && r.prefix == p)
    && forall r :: r in recs && Masked(r.prefix) == p ==> r.hop.iface == iface
  }

  lemma {:induction false} RepointedClaimed(recs: seq<Record>, p: Prefix, gw: Addr, iface: string)
    requires Masked(p) == p && Claimed(recs, p, iface)
    ensures Claimed(Repointed(recs, p, gw), p, iface)
  {
    var rest := recs[1..];
    assert recs == [recs[0]] + rest;
    if recs[0].prefix == p {
      assert Repointed(recs, p, gw)[0].prefix == p;
    } else {
      RepointedClaimed(rest, p, gw, iface);
      var r :| r in Repointed(rest, p, gw) && r.prefix == p;
      assert r in Repointed(recs, p, gw);
    }
  }

  /** A kernel route that no record matches survives Remove. */
  lemma {:induction false} UnmatchedSurvives(k: Kernel, recs: seq<Record>, p: Prefix)
    requires p in k.table
    requires forall r :: r in recs && Masked(r.prefix) == p ==> r.hop != k.table[p]
    ensures p in Rollback(k, recs).table
    decreases |recs|
  {
    if recs != [] {
      var last := recs[|recs| - 1];
      assert last in recs;
      UnmatchedSurvives(DelRoute(k, last.prefix, last.hop).0, recs[..|recs| - 1], p);
    }
  }

  /** The OS has flushed a pushed host route that the manager now wants as its
      pin-hole: its record still names the tunnel interface. */
  ghost predicate Adopting(w: World, server: Addr, gw: Addr, iface: string) {
    && w.m.server == Some(server) && w.m.pinholeGW == None && w.m.tunGW != Some(gw)
    && Host(server) !in w.k.table && Host(server) !in w.host
    && Claimed(w.m.installed, Host(server), iface)
  }

  /** Refreshing until the kernel takes the route leaves one behind. */
  lemma {:induction false} AdoptionLeaks(w: World, server: Addr, gw: Addr, iface: string, servers: set<Addr>)
    returns (es: seq<Event>)
    requires Adopting(w, server, gw, iface) && iface != ""
    ensures Runs(w, es, servers) && !CleanAt(Run(w, es))
    decreases |w.k.faults|
  {
    var e := Refresh(Some(gw));
    var w' := Step(w, e);
    HostIsMasked(server);
    var more: seq<Event> := [];
    if w.k.faults != [] && w.k.faults[0] {
      more := AdoptionLeaks(w', server, gw, iface, servers);
    } else {
      RepointedClaimed(w.m.installed, Host(server), gw, iface);
      UnmatchedSurvives(w'.k, w'.m.installed, Host(server));
      assert Run(w', more) == w';
    }
    es := [e] + more;
    assert es[1..] == more;
  }

  /** Pinning an address whose host route was pushed fails and leaves the manager
      without a pin-hole; then the OS flushes the pushed route. */
  lemma PinThenDrop(w: World, server: Addr, gw: Addr, iface: string)
    requires w.m.server.Some? && w.m.server != Some(server) && w.m.pinholeGW.Some? && w.m.tunGW != Some(gw)
    requires Host(server) in w.k.table && Host(server) !in w.host
    requires Claimed(Forgotten(w.m.installed, Host(w.m.server.value)), Host(server), iface)
    ensures var w1 := Step(w, Pin(Some(server), Some(gw)));
      && Host(server) in w1.k.table && w1.host == w.host
      && Adopting(Step(w1, OsDrop(Host(server))), server, gw, iface)
  {
    HostIsMasked(server);
    HostIsMasked(w.m.server.value);
    assert Host(server) != Host(w.m.server.value);
  }

  lemma RunsPrepend(w: World, e: Event, f: Event, more: seq<Event>, servers: set<Addr>) returns (es: seq<Event>)
    requires Enabled(w, e, servers) && Enabled(Step(w, e), f, servers) && Runs(Step(Step(w, e), f), more, servers)
    ensures Runs(w, es, servers) && Run(w, es) == Run(Step(Step(w, e), f), more)
  {
    es := [e, f] + more;
    assert es[1..] == [f] + more && es[1..][1..] == more;
    assert Runs(Step(w, e), es[1..], servers) && Run(Step(w, e), es[1..]) == Run(Step(Step(w, e), f), more);
  }

  lemma {:induction false} PushedIsInstalled(ps: seq<Prefix>, hop: Hop, p: Prefix)
    requires p in ps && Masked(p) == p
    ensures p in Via(ps, hop) && Record(p, hop) in Records(ps, hop)
  {
    var i :| 0 <= i < |ps| && ps[i] == p;
    assert Masked(ps[i]) == p;
    ViaKeys(ps, hop, p);
    RecordsMeaning(ps, hop, Record(p, hop));
  }

  /** Letting go of the first server's pin-hole keeps the pushed record. */
  lemma PushedStaysClaimed(pin: Record, ps: seq<Prefix>, hop: Hop, p: Prefix)
    requires Distinct([pin] + Records(ps, hop)) && p in ps && Masked(p) == p && Masked(pin.prefix) == pin.prefix != p
    ensures Claimed(Forgotten([pin] + Records(ps, hop), pin.prefix), p, hop.iface)
  {
    var recs := [pin] + Records(ps, hop);
    ForgottenMeaning(recs, pin.prefix);
    RecordsMeaning(ps, hop, Record(p, hop));
    assert Record(p, hop) in recs && Record(p, hop) in Forgotten(recs, pin.prefix);
    forall r | r in Forgotten(recs, pin.prefix) && Masked(r.prefix) == p
      ensures r.hop.iface == hop.iface
    {
      RecordsMeaning(ps, hop, r);
    }
  }

  /** A pushed host route of an address the server later moves to is adopted. */
  lemma PushedRouteIsAdopted(k: Kernel, m: Mgr, gateway: Option<Addr>, cidrs: seq<Cidr>,
                             servers: set<Addr>, server: Addr)
    returns (es: seq<Event>)
    requires Canonical(k.table) && Fresh(m) && m.iface != "" && server in servers
    requires Install(k, m, gateway, cidrs).2.None? && Host(server) in WantedAll(cidrs)
    ensures var w := World(Install(k, m, gateway, cidrs).0, Install(k, m, gateway, cidrs).1, k.table);
      Runs(w, es, servers) && !CleanAt(Run(w, es))
  {
    InstallMeaning(k, m, gateway, cidrs);
    var (k1, m1, _) := Install(k, m, gateway, cidrs);
    var p := Host(server);
    var tun := Hop(m.tunGW.value, m.iface);
    var gw := if m.tunGW == Some(V4(0)) then V4(1) else V4(0);
    HostIsMasked(server);
    HostIsMasked(m.server.value);
    PushedIsInstalled(WantedAll(cidrs), tun, p);
    PushedStaysClaimed(Record(Host(m.server.value), Hop(gateway.value, "")), WantedAll(cidrs), tun, p);
    var w := World(k1, m1, k.table);
    PinThenDrop(w, server, gw, m.iface);
    var pin, drop := Pin(Some(server), Some(gw)), OsDrop(p);
    var more := AdoptionLeaks(Step(Step(w, pin), drop), server, gw, m.iface, servers);
    es := RunsPrepend(w, pin, drop, more, servers);
  }

  ghost predicate AlwaysClean(w: World, servers: set<Addr>) {
    forall es :: Runs(w, es, servers) ==> CleanAt(Run(w, es))
  }

  /** The exact condition: with a named tunnel interface, every run after a
      successful Install is clean if and only if no pushed prefix is the host route
      of an address the server ever has. */
  lemma CleanExactlyIfPushesAvoid(k: Kernel, m: Mgr, gateway: Option<Addr>, cidrs: seq<Cidr>, servers: set<Addr>)
    requires Canonical(k.table) && Fresh(m) && m.iface != ""
    requires m.server.Some? ==> m.server.value in servers
    requires Install(k, m, gateway, cidrs).2.None?
    ensures var (k1, m1, _) := Install(k, m, gateway, cidrs);
      AlwaysClean(World(k1, m1, k.table), servers) <==> PushesAvoid(cidrs, servers)
  {
    var (k1, m1, _) := Install(k, m, gateway, cidrs);
    var w := World(k1, m1, k.table);
    if PushesAvoid(cidrs, servers) {
      forall es | Runs(w, es, servers) ensures CleanAt(Run(w, es)) {
        RunsLeaveNothingBehind(k, m, gateway, cidrs, es, servers);
      }
    } else {
      var p, s :| p in WantedAll(cidrs) && s in servers && p == Host(s);
      var es := PushedRouteIsAdopted(k, m, gateway, cidrs, servers, s);
    }
  }

  /** The state after installing the pushed host route of V4(20) over an empty
      table, with the server at V4(10). */
  function LeakyManager(): Mgr {
    Mgr("tun", Some(V4(1)), Some(V4(10)), Some(V4(2)),
        [Record(Host(V4(10)), Hop(V4(2), "")), Record(Host(V4(20)), Hop(V4(1), "tun"))])
  }

  function LeakyTable(): Table {
    map[Host(V4(10)) := Hop(V4(2), ""), Host(V4(20)) := Hop(V4(1), "tun")]
  }

  lemma LeakyInstall()
    ensures var m := Mgr("tun", Some(V4(1)), Some(V4(10)), None, []);
      Install(Kernel(map[], []), m, Some(V4(2)), [Parsed(Host(V4(20)))]) ==
        (Kernel(LeakyTable(), []), LeakyManager(), None)
  {
    var a, b: Prefix := Host(V4(10)), Host(V4(20));
    HostIsMasked(V4(10));
    HostIsMasked(V4(20));
    var pin, tun := Hop(V4(2), ""), Hop(V4(1), "tun");
    var cidrs := [Parsed(b)];
    assert cidrs[1..] == [] && Wanted(cidrs[0]) == [b] && [b][1..] == [];
    var k1, recs := Kernel(LeakyTable(), []), LeakyManager().installed;
    assert map[a := pin][b := tun] == k1.table;
    assert [] + [Record(a, pin)] == [Record(a, pin)];
    assert [Record(a, pin)] + [Record(b, tun)] == recs;
    var kA := Kernel(map[a := pin], []);
    assert AddRoute(Kernel(map[], []), a, pin) == (kA, true) && AddRoute(kA, b, tun) == (k1, true);
    assert AddAll(k1, recs, [], tun) == (k1, recs, true);
    assert AddAll(kA, [Record(a, pin)], [b], tun) == (k1, recs, true);
    assert PushAll(k1, recs, [], tun) == (k1, recs, None);
    assert PushAll(kA, [Record(a, pin)], cidrs, tun) == (k1, recs, None);
  }

  /** The server moves to V4(20), the OS flushes its route, and it is pinned again. */
  lemma LeakyPins()
    ensures var pin := Pin(Some(V4(20)), Some(V4(2)));
      var w1 := World(Kernel(LeakyTable(), []), LeakyManager(), map[]);
      var w2 := Step(w1, pin);
      var w3 := Step(w2, OsDrop(Host(V4(20))));
      var w4 := Step(w3, pin);
      && w2.k.table == map[Host(V4(20)) := Hop(V4(1), "tun")]
      && w2.m.installed == [Record(Host(V4(20)), Hop(V4(1), "tun"))]
      && w3.k.table == map[] && w2.host == w3.host == w4.host == map[]
      && Enabled(w1, pin, {V4(10), V4(20)}) && Enabled(w2, OsDrop(Host(V4(20))), {V4(10), V4(20)})
      && Enabled(w3, pin, {V4(10), V4(20)})
      && w4.k.table == map[Host(V4(20)) := Hop(V4(2), "")]
      && w4.m.installed == [Record(Host(V4(20)), Hop(V4(2), "tun"))]
  {
    var a, b: Prefix := Host(V4(10)), Host(V4(20));
    HostIsMasked(V4(10));
    HostIsMasked(V4(20));
    var recs := LeakyManager().installed;
    var kept := [Record(b, Hop(V4(1), "tun"))];
    assert recs[1..] == kept && kept[1..] == [];
    assert Forgotten(kept, a) == kept && Forgotten(recs, a) == kept;
    assert LeakyTable() - {a} == map[b := Hop(V4(1), "tun")];
    var t: Table := map[b := Hop(V4(1), "tun")];
    assert t - {b} == map[];
  }

  /** The same on one concrete run: the server pushes the host route of an address
      it later moves to; once the OS flushes that route, re-pinning adopts the
      pushed record, whose interface hint no longer matches the kernel, and Remove
      leaves the route behind. */
  lemma PushedServerRouteLeaks()
    ensures var k := Kernel(map[], []);
      var m := Mgr("tun", Some(V4(1)), Some(V4(10)), None, []);
      var (k1, m1, e) := Install(k, m, Some(V4(2)), [Parsed(Host(V4(20)))]);
      var pin := Pin(Some(V4(20)), Some(V4(2)));
      var w := Step(Step(Step(World(k1, m1, k.table), pin), OsDrop(Host(V4(20)))), pin);
      && e == None && w.host == k.table
      && Remove(w.k, w.m).0.table == map[Host(V4(20)) := Hop(V4(2), "")]
  {
    LeakyInstall();
    LeakyPins();
    HostIsMasked(V4(20));
    var pin := Pin(Some(V4(20)), Some(V4(2)));
    var w := Step(Step(Step(World(Kernel(LeakyTable(), []), LeakyManager(), map[]), pin), OsDrop(Host(V4(20)))), pin);
    assert w.m.installed[..0] == [];
    assert Rollback(w.k, w.m.installed) == w.k;
  }

  /** A manager whose Install failed must not be used again (the client drops it):
      it still remembers the gateway. A refresh then alters the host's own table
      exactly if the host routes the server's address through that gateway itself,
      and the refresh moves it or cannot add it again. */
  lemma RefreshAfterFailedInstall(k: Kernel, m: Mgr, gateway: Addr, cidrs: seq<Cidr>, next: Addr)
    requires Canonical(k.table) && Fresh(m) && InstallGuard(m).None? && m.tunGW != Some(next)
    requires Install(k, m, Some(gateway), cidrs).2.Some?
    ensures var (k1, m1, _) := Install(k, m, Some(gateway), cidrs);
      var t := RefreshServerPinhole(k1, m1, Some(next)).0.table;
      var p := Host(m.server.value);
      (exists q :: q in k.table && (q !in t || t[q] != k.table[q])) <==>
        (p in k.table && k.table[p] == Hop(gateway, "") && (next != gateway || (k1.faults != [] && k1.faults[0])))
  {
    FailedInstallRestores(k, m, Some(gateway), cidrs);
    HostIsMasked(m.server.value);
    var p := Host(m.server.value);
    var (k1, m1, _) := Install(k, m, Some(gateway), cidrs);
    var t := RefreshServerPinhole(k1, m1, Some(next)).0.table;
    assert forall q :: q in k.table && q != p ==> q in t && t[q] == k.table[q];
  }
}
