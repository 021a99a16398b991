/** The data plane: internal/tunnel/server/router.go, which reads the TUN device,
    and the sessionReader and sessionWriter loops of server.go. */
module Router {
  import opened Base
  import opened Frames
  import opened IpFrame
  import opened Sessions

  type Bytes = Frames.Bytes

  // ------------------------------------------------- one reused read buffer

  /** What a queue of buffers holds. */
  ghost function Contents(q: seq<array<Octet>>): seq<Bytes>
    reads q
  {
    if q == [] then [] else Contents(q[..|q| - 1]) + [q[|q| - 1][..]]
  }

  /** A queue after being offered `pkts`: each is dropped if the queue is full. */
  function Offered(q: seq<Bytes>, pkts: seq<Bytes>): seq<Bytes> {
    if pkts == [] then q
    else Queued(Offered(q, pkts[..|pkts| - 1]), pkts[|pkts| - 1])
  }

  /** The packets addressed to `ip`, in order. */
  function AddressedTo(pkts: seq<Bytes>, ip: IPv4): seq<Bytes> {
    if pkts == [] then []
    else
      var p := pkts[|pkts| - 1];
      AddressedTo(pkts[..|pkts| - 1], ip) + (if Parse(p).Ends? && Parse(p).dst == ip then [p] else [])
  }

  /** A queue after being offered one packet read from the device. */
  function OfferedOne(q: seq<Bytes>, p: Bytes, ip: IPv4): seq<Bytes> {
    if Parse(p).Ends? && Parse(p).dst == ip then Queued(q, p) else q
  }

  /** A queue after the reader has taken `pkts` from the device. */
  function Routed(q: seq<Bytes>, pkts: seq<Bytes>, ip: IPv4): seq<Bytes> {
    if pkts == [] then q else OfferedOne(Routed(q, pkts[..|pkts| - 1], ip), pkts[|pkts| - 1], ip)
  }

  lemma RoutedNext(pkts: seq<Bytes>, k: nat)
    requires k < |pkts|
    ensures forall q, ip :: Routed(q, pkts[..k + 1], ip) == OfferedOne(Routed(q, pkts[..k], ip), pkts[k], ip)
  {
    assert pkts[..k + 1][..k] == pkts[..k];
  }

  lemma {:induction false} ContentsLength(q: seq<array<Octet>>)
    ensures |Contents(q)| == |q|
  {
    if q != [] {
      ContentsLength(q[..|q| - 1]);
    }
  }

  lemma ContentsSnoc(q: seq<array<Octet>>, a: array<Octet>)
    ensures Contents(q + [a]) == Contents(q) + [a[..]]
  {
    assert (q + [a])[..|q|] == q;
  }

  class TunReader {
    const buf: array<Octet>
    const registry: Registry

    constructor (mtu: nat, registry: Registry)
      ensures fresh(buf) && buf.Length == mtu + 64 && this.registry == registry
    {
      buf := new Octet[mtu + 64];
      this.registry := registry;
    }

    /** Sessions are registered under their own address, and none of them queues
        the read buffer itself. */
    ghost predicate Valid()
      reads registry, registry.byIPv4.Values
    {
      forall ip :: ip in registry.byIPv4 ==> registry.byIPv4[ip].ip == ip && buf !in registry.byIPv4[ip].outbound
    }

    method Read(p: Bytes) returns (n: nat)
      requires |p| <= buf.Length
      modifies buf
      ensures n == |p| && buf[..n] == p
    {
      n := |p|;
      forall i | 0 <= i < |p| {
        buf[i] := p[i];
      }
    }

    /** Queues a copy, so that the next read does not overwrite what is waiting. */
    method CopyTo(sess: Session, n: nat)
      requires n <= buf.Length && buf !in sess.outbound
      modifies sess`outbound
      ensures buf !in sess.outbound
      ensures Contents(sess.outbound) == Queued(old(Contents(sess.outbound)), buf[..n])
    {
      var cp := new Octet[n];
      forall i | 0 <= i < n {
        cp[i] := buf[i];
      }
      assert cp[..] == buf[..n];
      ContentsLength(sess.outbound);
      var ok := sess.Enqueue(cp);
      if ok {
        ContentsSnoc(old(sess.outbound), cp);
      }
    }

    /** Queues a copy of the packet in the buffer on the session it is addressed to,
        unless that queue is full; no other queue changes. */
    method Dispatch(n: nat)
      requires Valid() && n <= buf.Length
      modifies registry.byIPv4.Values`outbound
      ensures Valid()
      ensures forall ip :: ip in registry.byIPv4 ==>
        var s := registry.byIPv4[ip];
        Contents(s.outbound) == OfferedOne(old(Contents(s.outbound)), buf[..n], ip)
    {
      if n == 0 {
        return;
      }
      var parsed := Parse(buf[..n]);
      if parsed.Rejected? {
        return;
      }
      var sess := registry.ByIPv4(Some(parsed.dst));
      if sess == null {
        return;
      }
      CopyTo(sess, n);
    }

    /** Reads `pkts` from the device one after another into the one buffer. */
    method Pump(pkts: seq<Bytes>)
      requires Valid() && forall p :: p in pkts ==> |p| <= buf.Length
      modifies buf, registry.byIPv4.Values`outbound
      ensures Valid()
      ensures forall ip :: ip in registry.byIPv4 ==>
        var s := registry.byIPv4[ip];
        Contents(s.outbound) == Routed(old(Contents(s.outbound)), pkts, ip)
    {
      for k := 0 to |pkts|
        invariant Valid()
        invariant forall ip :: ip in registry.byIPv4 ==>
          var s := registry.byIPv4[ip];
          Contents(s.outbound) == Routed(old(Contents(s.outbound)), pkts[..k], ip)
      {
        RoutedNext(pkts, k);
        ReadAndDispatch(pkts[k]);
      }
      assert pkts[..|pkts|] == pkts;
    }

    method ReadAndDispatch(p: Bytes)
      requires Valid() && |p| <= buf.Length
      modifies buf, registry.byIPv4.Values`outbound
      ensures Valid()
      ensures forall ip :: ip in registry.byIPv4 ==>
        var s := registry.byIPv4[ip];
        Contents(s.outbound) == OfferedOne(old(Contents(s.outbound)), p, ip)
    {
      var n := Read(p);
      Dispatch(n);
    }
  }

  /** The reader offers each queue the packets addressed to it, in order, and
      nothing else. */
  lemma {:induction false} RoutedMeaning(q: seq<Bytes>, pkts: seq<Bytes>, ip: IPv4)
    ensures Routed(q, pkts, ip) == Offered(q, AddressedTo(pkts, ip))
  {
    if pkts != [] {
      RoutedMeaning(q, pkts[..|pkts| - 1], ip);
      var a, p := AddressedTo(pkts[..|pkts| - 1], ip), pkts[|pkts| - 1];
      assert (a + [p])[..|a|] == a;
      assert a + [] == a;
    }
  }
}
