/** internal/ipalloc/ipalloc.go: the in-memory IPv4 pool. */
module IpAlloc {
  import opened Base

  datatype PoolError =
    | UnparsableCidr | CidrNotIPv4 | NoHostRange
    | ReserveNotIPv4 | ReserveOutside | NothingLeft

  datatype AllocError = AlreadyAllocated | PoolExhausted

  datatype Grant = Granted(ip: IPv4) | Denied(error: AllocError)

  /** What net.ParseCIDR made of the configured string; for an IPv4 block the
      network address comes back masked. */
  datatype Cidr = Unparsable | NotIPv4 | Block(network: IPv4, ones: nat)

  datatype PoolState = PoolState(addrs: seq<IPv4>, free: set<IPv4>, byClient: map<string, IPv4>)

  ghost predicate Ascending(addrs: seq<int>) {
    forall i, j :: 0 <= i < j < |addrs| ==> addrs[i] < addrs[j]
  }

  /** No two clients share an address, and every candidate is either free or
      held by exactly one client. */
  ghost predicate Partitioned(p: PoolState) {
    && Ascending(p.addrs)
    && (forall c :: c in p.byClient ==> p.byClient[c] in p.addrs && p.byClient[c] !in p.free)
    && (forall c, d :: c in p.byClient && d in p.byClient && p.byClient[c] == p.byClient[d] ==> c == d)
    && (forall a :: a in p.free ==> a in p.addrs)
    && (forall a :: a in p.addrs && a !in p.free ==> exists c :: c in p.byClient && p.byClient[c] == a)
  }

  /** The scan of the candidate list for a free address. */
  function FirstFree(addrs: seq<IPv4>, free: set<IPv4>): Option<IPv4> {
    if addrs == [] then None
    else if addrs[0] in free then Some(addrs[0])
    else FirstFree(addrs[1..], free)
  }

  function Allocated(p: PoolState, client: string): (PoolState, Grant) {
    if client in p.byClient then (p, Denied(AlreadyAllocated))
    else
      match FirstFree(p.addrs, p.free)
      case None => (p, Denied(PoolExhausted))
      case Some(a) =>
        (p.(free := p.free - {a}, byClient := p.byClient[client := a]), Granted(a))
  }

  function Released(p: PoolState, client: string): PoolState {
    if client !in p.byClient then p
    else p.(byClient := p.byClient - {client}, free := p.free + {p.byClient[client]})
  }

  lemma {:induction false} FirstFreeIsLeast(addrs: seq<IPv4>, free: set<IPv4>)
    requires Ascending(addrs)
    ensures match FirstFree(addrs, free)
      case None => forall a :: a in addrs ==> a !in free
      case Some(a) => a in addrs && a in free && forall b :: b in addrs && b in free ==> a <= b
  {
    if addrs != [] && addrs[0] !in free {
      FirstFreeIsLeast(addrs[1..], free);
    }
  }

  /** Allocate hands out the least free address, reports exhaustion only when no
      address is free, refuses a client that already holds one, and keeps the
      partition. */
  lemma AllocateMeaning(p: PoolState, client: string)
    requires Partitioned(p)
    ensures var (p', g) := Allocated(p, client);
      && Partitioned(p')
      && (client in p.byClient <==> g == Denied(AlreadyAllocated))
      && (g == Denied(PoolExhausted) <==> client !in p.byClient && p.free == {})
      && (g.Denied? ==> p' == p)
      && (g.Granted? ==>
            && g.ip in p.free && (forall b :: b in p.free ==> g.ip <= b)
            && p'.free == p.free - {g.ip} && p'.byClient == p.byClient[client := g.ip]
            && p'.addrs == p.addrs)
  {
    FirstFreeIsLeast(p.addrs, p.free);
    var (p', g) := Allocated(p, client);
    if g.Granted? {
      forall a | a in p'.addrs && a !in p'.free
        ensures exists c :: c in p'.byClient && p'.byClient[c] == a
      {
        if a == g.ip {
          assert p'.byClient[client] == a;
        } else {
          var c :| c in p.byClient && p.byClient[c] == a;
          assert p'.byClient[c] == a;
        }
      }
    }
  }

  /** Release gives back exactly the client's own address. */
  lemma ReleaseMeaning(p: PoolState, client: string)
    requires Partitioned(p)
    ensures var p' := Released(p, client);
      && Partitioned(p')
      && p'.byClient == p.byClient - {client}
      && p'.free == p.free + (if client in p.byClient then {p.byClient[client]} else {})
  {
    var p' := Released(p, client);
    assert client !in p.byClient ==> p.byClient - {client} == p.byClient;
    forall a | a in p'.addrs && a !in p'.free
      ensures exists c :: c in p'.byClient && p'.byClient[c] == a
    {
      var c :| c in p.byClient && p.byClient[c] == a;
      assert c != client ==> p'.byClient[c] == a;
    }
  }

  /** A client that was granted an address and releases it leaves the pool as it
      found it. */
  lemma AllocateThenRelease(p: PoolState, client: string)
    requires Partitioned(p) && client !in p.byClient
    ensures Released(Allocated(p, client).0, client) == p
  {
    AllocateMeaning(p, client);
    var p1 := Allocated(p, client).0;
    assert p1.byClient - {client} == p.byClient;
    if p.free != {} {
      assert p1.free + {p1.byClient[client]} == p.free;
    }
  }

  /** The candidate enumeration: strictly ascending, exactly the addresses
      between network and broadcast that are not reserved. */
  method Enumerate(base: IPv4, broadcast: IPv4, reserved: set<IPv4>) returns (addrs: seq<IPv4>)
    requires base <= broadcast
    ensures Ascending(addrs)
    ensures forall u: IPv4 :: u in addrs <==> base < u < broadcast && u !in reserved
  {
    addrs := [];
    var u: int := base + 1;
    while u < broadcast
      invariant base < u && (u <= broadcast || u == base + 1)
      invariant Ascending(addrs) && (forall k :: 0 <= k < |addrs| ==> addrs[k] < u)
      invariant forall a: IPv4 :: a in addrs <==> base < a < broadcast && a < u && a !in reserved
    {
      if u !in reserved {
        addrs := addrs + [u];
      }
      u := u + 1;
    }
  }

  /** The complaint about the first reserved address that is not IPv4 or lies
      outside the block. */
  function ReserveFault(base: int, broadcast: int, reserve: seq<Option<IPv4>>): (error: Option<PoolError>)
    ensures error.None? <==> forall r :: r in reserve ==> r.Some? && base <= r.value <= broadcast
    ensures error in {None, Some(ReserveNotIPv4), Some(ReserveOutside)}
  {
    if reserve == [] then None
    else
      assert reserve[0] in reserve;
      match reserve[0]
      case None => Some(ReserveNotIPv4)
      case Some(u) =>
        if u < base || u > broadcast then Some(ReserveOutside)
        else ReserveFault(base, broadcast, reserve[1..])
  }

  /** It is the first faulty entry that decides which complaint it is. */
  lemma {:induction false} FirstFaultDecides(base: int, broadcast: int, reserve: seq<Option<IPv4>>, i: nat)
    requires i < |reserve| && forall j :: 0 <= j < i ==> reserve[j].Some? && base <= reserve[j].value <= broadcast
    requires reserve[i].None? || !(base <= reserve[i].value <= broadcast)
    ensures ReserveFault(base, broadcast, reserve) == Some(if reserve[i].None? then ReserveNotIPv4 else ReserveOutside)
  {
    if i > 0 {
      FirstFaultDecides(base, broadcast, reserve[1..], i - 1);
    }
  }

  method Reserve(base: IPv4, broadcast: IPv4, reserve: seq<Option<IPv4>>)
    returns (reserved: set<IPv4>, error: Option<PoolError>)
    ensures error == ReserveFault(base, broadcast, reserve)
    ensures error.None? ==> forall u :: u in reserved <==> u == base || u == broadcast || Some(u) in reserve
  {
    reserved := {base, broadcast};
    for i := 0 to |reserve|
      invariant ReserveFault(base, broadcast, reserve) == ReserveFault(base, broadcast, reserve[i..])
      invariant forall u :: u in reserved <==> u == base || u == broadcast || Some(u) in reserve[..i]
    {
      match reserve[i] {
        case None => return reserved, Some(ReserveNotIPv4);
        case Some(u) =>
          if u < base || u > broadcast {
            return reserved, Some(ReserveOutside);
          }
          reserved := reserved + {u};
      }
      assert reserve[..i + 1] == reserve[..i] + [reserve[i]];
    }
    assert reserve[..|reserve|] == reserve;
    error := None;
  }

  /** The last address of a block, in uint32 arithmetic: for a /0 the size wraps
      to zero and the subtraction wraps back. */
  function Broadcast(network: IPv4, ones: nat): IPv4
    requires ones <= 32
  {
    (network + Pow2(32 - ones) % TWO_32 - 1) % TWO_32
  }

  lemma {:induction false} Pow2Splits(m: nat, n: nat)
    ensures Pow2(m + n) == Pow2(m) * Pow2(n)
  {
    if n != 0 {
      Pow2Splits(m, n - 1);
      assert Pow2(m) * (2 * Pow2(n - 1)) == 2 * (Pow2(m) * Pow2(n - 1));
    }
  }

  lemma BlockFits(network: IPv4, size: nat, blocks: nat)
    requires size > 0 && blocks > 0 && network % size == 0 && size * blocks == TWO_32
    ensures (network + size % TWO_32 - 1) % TWO_32 == network + size - 1
  {
    var q := network / size;
    assert network == size * q;
    if q >= blocks {
      MulMonotone(size, blocks, q);
    }
    MulMonotone(size, q + 1, blocks);
    assert size * (q + 1) == network + size;
    if blocks == 1 {
      assert size * blocks == size;
      DivUnique(size, TWO_32, 1, 0);
      DivUnique(network - 1, TWO_32, -1, TWO_32 - 1);
    } else {
      MulMonotone(size, 2, blocks);
      DivUnique(size, TWO_32, 0, size);
      DivUnique(network + size - 1, TWO_32, 0, network + size - 1);
    }
  }

  /** The wrapping computation agrees with the block's true last address for
      every aligned block, /0 included. */
  lemma BroadcastIsLast(network: IPv4, ones: nat)
    requires ones <= 32 && network % Pow2(32 - ones) == 0
    ensures Broadcast(network, ones) == network + Pow2(32 - ones) - 1
  {
    Pow2Of32();
    Pow2Splits(32 - ones, ones);
    BlockFits(network, Pow2(32 - ones), Pow2(ones));
  }

  /** Whether `u` may be handed out by a pool over the block. */
  ghost predicate Usable(network: IPv4, ones: nat, reserve: seq<Option<IPv4>>, u: IPv4)
    requires ones <= 32
  {
    network < u < network + Pow2(32 - ones) - 1 && Some(u) !in reserve
  }

  lemma FirstFreeNext(addrs: seq<IPv4>, free: set<IPv4>, i: nat)
    requires i < |addrs|
    ensures FirstFree(addrs[i..], free) == if addrs[i] in free then Some(addrs[i]) else FirstFree(addrs[i + 1..], free)
  {
    assert addrs[i..][1..] == addrs[i + 1..];
  }

  class Pool {
    var addrs: seq<IPv4>
    var free: set<IPv4>
    var byClient: map<string, IPv4>

    function State(): PoolState
      reads this
    {
      PoolState(addrs, free, byClient)
    }

    constructor (addrs: seq<IPv4>)
      requires Ascending(addrs)
      ensures State() == PoolState(addrs, set a | a in addrs, map[])
      ensures Partitioned(State())
    {
      this.addrs := addrs;
      this.free := set a | a in addrs;
      this.byClient := map[];
    }

    method Allocate(client: string) returns (g: Grant)
      requires Partitioned(State())
      modifies this
      ensures (State(), g) == Allocated(old(State()), client)
      ensures Partitioned(State())
    {
      AllocateMeaning(State(), client);
      if client in byClient {
        return Denied(AlreadyAllocated);
      }
      for i := 0 to |addrs|
        invariant State() == old(State()) && i <= |addrs|
        invariant FirstFree(addrs, free) == FirstFree(addrs[i..], free)
      {
        FirstFreeNext(addrs, free, i);
        if addrs[i] in free {
          g := Granted(addrs[i]);
          byClient := byClient[client := addrs[i]];
          free := free - {addrs[i]};
          return;
        }
      }
      return Denied(PoolExhausted);
    }

    method Release(client: string)
      requires Partitioned(State())
      modifies this
      ensures State() == Released(old(State()), client)
      ensures Partitioned(State())
    {
      ReleaseMeaning(State(), client);
      if client in byClient {
        free := free + {byClient[client]};
        byClient := byClient - {client};
      }
    }

    method InUse() returns (n: nat)
      ensures n == |byClient|
    {
      n := |byClient|;
    }
  }

  /** Builds a pool over a block. A usable pool holds exactly the host addresses
      of the block less the reserved ones, all free; every refusal is accounted
      for. */
  method New(cidr: Cidr, reserve: seq<Option<IPv4>>) returns (pool: Pool?, error: Option<PoolError>)
    requires cidr.Block? ==> cidr.ones <= 32 && cidr.network % Pow2(32 - cidr.ones) == 0
    ensures pool != null <==> error.None?
    ensures error == Some(UnparsableCidr) <==> cidr.Unparsable?
    ensures error == Some(CidrNotIPv4) <==> cidr.NotIPv4?
    ensures error == Some(NoHostRange) <==> cidr.Block? && cidr.ones >= 31
    ensures cidr.Block? && cidr.ones <= 30 ==>
      var fault := ReserveFault(cidr.network, cidr.network + Pow2(32 - cidr.ones) - 1, reserve);
      && (fault.Some? ==> error == fault)
      && (error == Some(NothingLeft) <==>
            fault.None? && forall u: IPv4 :: !Usable(cidr.network, cidr.ones, reserve, u))
    ensures pool != null ==>
      && fresh(pool) && cidr.Block? && cidr.ones <= 30
      && Partitioned(pool.State()) && pool.byClient == map[]
      && (forall u: IPv4 :: u in pool.addrs <==> Usable(cidr.network, cidr.ones, reserve, u))
      && (forall u: IPv4 :: u in pool.free <==> u in pool.addrs)
  {
    match cidr {
      case Unparsable => return null, Some(UnparsableCidr);
      case NotIPv4 => return null, Some(CidrNotIPv4);
      case Block(network, ones) =>
        if ones >= 31 {
          return null, Some(NoHostRange);
        }
        var broadcast := Broadcast(network, ones);
        BroadcastIsLast(network, ones);
        var reserved, bad := Reserve(network, broadcast, reserve);
        if bad.Some? {
          return null, bad;
        }
        var addrs := Enumerate(network, broadcast, reserved);
        assert forall u: IPv4 :: u in addrs <==> Usable(network, ones, reserve, u);
        if |addrs| == 0 {
          return null, Some(NothingLeft);
        }
        assert Usable(network, ones, reserve, addrs[0]) by {
          assert addrs[0] in addrs;
        }
        pool := new Pool(addrs);
        return pool, None;
    }
  }
}
