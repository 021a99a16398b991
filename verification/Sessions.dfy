/** internal/tunnel/server/session.go: one live client, and the registry that
    indexes the live clients by name and by address. */
module Sessions {
  import opened Base

  /** The capacity of a session's outbound channel. */
  const QUEUE_DEPTH: nat := 64

  /** A non-blocking send on that channel: a full queue stays as it is. */
  function Queued<T>(q: seq<T>, x: T): seq<T> {
    if |q| < QUEUE_DEPTH then q + [x] else q
  }

  /** The registry's two indexes, over whatever identifies a session. */
  datatype Index<!S(==)> = Index(byCN: map<string, S>, byIPv4: map<IPv4, S>)

  function Added<S(==)>(x: Index<S>, s: S, cn: string, ip: IPv4): Index<S> {
    Index(x.byCN[cn := s], x.byIPv4[ip := s])
  }

  /** Both entries go, but only if `s` is still the session registered for its
      name. */
  function Removed<S(==)>(x: Index<S>, s: S, cn: string, ip: IPv4): Index<S> {
    if cn in x.byCN && x.byCN[cn] == s then Index(x.byCN - {cn}, x.byIPv4 - {ip}) else x
  }

  class Session {
    const cn: string
    const ip: IPv4
    var outbound: seq<array<Octet>>
    var closed: bool
    var done: bool

    constructor (cn: string, ip: IPv4)
      ensures this.cn == cn && this.ip == ip
      ensures outbound == [] && !closed && !done
    {
      this.cn, this.ip := cn, ip;
      outbound, closed, done := [], false, false;
    }

    /** Queues the packet unless the queue is full; never blocks. */
    method Enqueue(pkt: array<Octet>) returns (ok: bool)
      modifies this`outbound
      ensures ok <==> |old(outbound)| < 64
      ensures outbound == Queued(old(outbound), pkt) == if ok then old(outbound) + [pkt] else old(outbound)
    {
      ok := |outbound| < QUEUE_DEPTH;
      if ok {
        outbound := outbound + [pkt];
      }
    }

    /** Signals the session to end; `first` says whether this call was the one
        that closed the connection. */
    method Close() returns (first: bool)
      modifies this`closed
      ensures closed && first == !old(closed)
    {
      first := !closed;
      closed := true;
    }
  }

  class Registry {
    var byCN: map<string, Session>
    var byIPv4: map<IPv4, Session>

    function State(): Index<Session>
      reads this
    {
      Index(byCN, byIPv4)
    }

    constructor ()
      ensures State() == Index(map[], map[])
    {
      byCN, byIPv4 := map[], map[];
    }

    method Add(s: Session)
      modifies this
      ensures State() == Added(old(State()), s, s.cn, s.ip)
    {
      byCN := byCN[s.cn := s];
      byIPv4 := byIPv4[s.ip := s];
    }

    method Remove(s: Session)
      modifies this
      ensures State() == Removed(old(State()), s, s.cn, s.ip)
    {
      if s.cn in byCN && byCN[s.cn] == s {
        byCN := byCN - {s.cn};
        byIPv4 := byIPv4 - {s.ip};
      }
    }

    method ByCN(cn: string) returns (s: Session?)
      ensures s == if cn in byCN then byCN[cn] else null
    {
      s := if cn in byCN then byCN[cn] else null;
    }

    /** An address that is not IPv4 belongs to nobody. */
    method ByIPv4(ip: Option<IPv4>) returns (s: Session?)
      ensures s == if ip.Some? && ip.value in byIPv4 then byIPv4[ip.value] else null
    {
      if ip.None? {
        return null;
      }
      s := if ip.value in byIPv4 then byIPv4[ip.value] else null;
    }

    method Snapshot() returns (out: seq<Session>)
      ensures |out| == |byCN|
      ensures forall s :: s in out <==> s in byCN.Values
    {
      out := [];
      var names := byCN.Keys;
      while names != {}
        invariant names <= byCN.Keys && |out| + |names| == |byCN|
        invariant forall s :: s in out <==> exists c :: c in byCN && c !in names && byCN[c] == s
        decreases |names|
      {
        var c :| c in names;
        out := out + [byCN[c]];
        names := names - {c};
      }
    }
  }

  /** Adding a session whose name and address are free, and removing it again,
      leaves the index as it was. */
  lemma AddThenRemove<S>(x: Index<S>, s: S, cn: string, ip: IPv4)
    requires cn !in x.byCN && ip !in x.byIPv4
    ensures Removed(Added(x, s, cn, ip), s, cn, ip) == x
  {
    var y := Added(x, s, cn, ip);
    assert y.byCN - {cn} == x.byCN;
    assert y.byIPv4 - {ip} == x.byIPv4;
  }
}
