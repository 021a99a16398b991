/** internal/tunnel/server/server.go, sessionReader: what of a client's stream
    reaches the TUN device. */
module Relay {
  import opened Base
  import opened Frames
  import IpFrame

  type Bytes = Frames.Bytes

  const MIN_PEER_VERSION := 1

  /** 0 is a client from before versioning. */
  predicate PeerCompatible(version: int) { version == 0 || version >= MIN_PEER_VERSION }

  /** What a control frame turns out to be; a hello that does not parse has no
      version. */
  datatype ControlKind = Undecodable | Keepalive | Hello(version: Option<int>) | Unexpected

  /** What the reader finds when it handles a frame: the registry, the decoded
      control message, and whether the TUN device takes a write. */
  datatype Sight = Sight(byIPv4: map<IPv4, nat>, control: ControlKind, tunOk: bool)

  /** A session as its reader knows it. */
  datatype Me = Me(id: nat, ip: IPv4, mtu: nat)

  predicate Outdated(c: ControlKind) {
    c.Hello? && c.version.Some? && !PeerCompatible(c.version.value)
  }

  /** The packet comes from the session's own address, goes to no other session,
      and fits the tunnel. */
  predicate Allowed(b: Bytes, byIPv4: map<IPv4, nat>, me: Me) {
    var h := IpFrame.Parse(b);
    && h.Ends? && h.src == me.ip
    && (h.dst in byIPv4 ==> byIPv4[h.dst] == me.id)
    && |b| <= me.mtu
  }

  /** This frame ends the session: an outdated client, or a failing device. */
  predicate Final(p: Packet, w: Sight, me: Me) {
    if p.kind.Control? then Outdated(w.control) else Allowed(p.body, w.byIPv4, me) && !w.tunOk
  }

  predicate Passes(p: Packet, w: Sight, me: Me) {
    p.kind.Data? && Allowed(p.body, w.byIPv4, me) && w.tunOk
  }

  /** What is written for the frames `ps`, the first of which is number `at`. */
  function Relayed(ps: seq<Packet>, sight: nat -> Sight, me: Me, at: nat): seq<Bytes>
    decreases |ps|
  {
    if ps == [] || Final(ps[0], sight(at), me) then []
    else (if Passes(ps[0], sight(at), me) then [ps[0].body] else []) + Relayed(ps[1..], sight, me, at + 1)
  }

  /** One frame: what is written to the device, and whether the session ends. */
  method Handle(p: Packet, w: Sight, me: Me) returns (out: seq<Bytes>, stop: bool)
    ensures stop <==> Final(p, w, me)
    ensures out == if Passes(p, w, me) then [p.body] else []
  {
    out, stop := [], false;
    match p.kind {
      case Control =>
        if w.control.Hello? && w.control.version.Some? && !PeerCompatible(w.control.version.value) {
          stop := true;
        }
      case Data =>
        var h := IpFrame.Parse(p.body);
        if h.Rejected? {
          return;
        }
        if h.src != me.ip {
          return;
        }
        if h.dst in w.byIPv4 && w.byIPv4[h.dst] != me.id {
          return;
        }
        if |p.body| > me.mtu {
          return;
        }
        if !w.tunOk {
          stop := true;
          return;
        }
        out := [p.body];
    }
  }

  lemma RelayedNext(p: Packet, ps: seq<Packet>, sight: nat -> Sight, me: Me, at: nat)
    ensures Relayed([p] + ps, sight, me, at) ==
      if Final(p, sight(at), me) then []
      else (if Passes(p, sight(at), me) then [p.body] else []) + Relayed(ps, sight, me, at + 1)
  {
    assert ([p] + ps)[1..] == ps;
  }

  /** `all` is what has been written plus what the rest of the stream will give. */
  predicate Due(all: seq<Bytes>, written: seq<Bytes>, rest: Bytes, sight: nat -> Sight, me: Me, at: nat) {
    all == written + Relayed(ReadAll(rest).0, sight, me, at)
  }

  lemma DueNext(all: seq<Bytes>, written: seq<Bytes>, s: Bytes, sight: nat -> Sight, me: Me, at: nat)
    requires Due(all, written, s, sight, me, at)
    ensures match ReadPacket(s)
      case Failed(_) => all == written
      case Got(p, rest) =>
        if Final(p, sight(at), me) then all == written
        else Due(all, written + if Passes(p, sight(at), me) then [p.body] else [], rest, sight, me, at + 1)
  {
    match ReadPacket(s)
    case Failed(_) =>
    case Got(p, rest) =>
      var more := ReadAll(rest).0;
      assert ReadAll(s).0 == [p] + more;
      RelayedNext(p, more, sight, me, at);
      Assoc(written, if Passes(p, sight(at), me) then [p.body] else [], Relayed(more, sight, me, at + 1));
  }

  method SessionReader(src: Source, sight: nat -> Sight, me: Me) returns (written: seq<Bytes>)
    modifies src
    ensures written == Relayed(ReadAll(old(src.rest)).0, sight, me, 0)
  {
    written := [];
    var at := 0;
    ghost var all := Relayed(ReadAll(src.rest).0, sight, me, 0);
    while true
      invariant Due(all, written, src.rest, sight, me, at)
      decreases |src.rest|
    {
      DueNext(all, written, src.rest, sight, me, at);
      var p, error := src.Next();
      if error.Some? {
        return;
      }
      var out, stop := Handle(p, sight(at), me);
      if stop {
        return;
      }
      written := written + out;
      at := at + 1;
    }
  }

  predicate PassesAt(ps: seq<Packet>, sight: nat -> Sight, me: Me, at: nat, i: nat) {
    i < |ps| && Passes(ps[i], sight(at + i), me)
  }

  /** No frame before `i` ended the session. */
  predicate LiveUntil(ps: seq<Packet>, sight: nat -> Sight, me: Me, at: nat, i: nat) {
    i <= |ps| && forall j :: 0 <= j < i ==> !Final(ps[j], sight(at + j), me)
  }

  /** How many of the first `n` frames pass. */
  function Passed(ps: seq<Packet>, sight: nat -> Sight, me: Me, at: nat, n: nat): nat
    requires n <= |ps|
  {
    if n == 0 then 0
    else (if Passes(ps[0], sight(at), me) then 1 else 0) + Passed(ps[1..], sight, me, at + 1, n - 1)
  }

  /** A frame reaches the device exactly if it passes the checks and nothing before
      it ended the session, and it does so in its place and unchanged. */
  lemma {:induction false} RelayedMeaning(ps: seq<Packet>, sight: nat -> Sight, me: Me, at: nat, i: nat)
    requires i < |ps| && LiveUntil(ps, sight, me, at, i)
    ensures var k := Passed(ps, sight, me, at, i);
      && k <= |Relayed(ps, sight, me, at)|
      && (PassesAt(ps, sight, me, at, i) ==>
            k < |Relayed(ps, sight, me, at)| && Relayed(ps, sight, me, at)[k] == ps[i].body)
    decreases |ps|
  {
    assert i > 0 ==> !Final(ps[0], sight(at + 0), me);
    if i > 0 {
      assert forall j :: 0 <= j < i - 1 ==> ps[1..][j] == ps[j + 1] && sight(at + 1 + j) == sight(at + (j + 1));
      RelayedMeaning(ps[1..], sight, me, at + 1, i - 1);
    }
  }

  /** Frame `i` is where the `k`-th write comes from. */
  predicate ComesFrom(ps: seq<Packet>, sight: nat -> Sight, me: Me, at: nat, k: nat, i: nat) {
    && PassesAt(ps, sight, me, at, i) && LiveUntil(ps, sight, me, at, i)
    && Passed(ps, sight, me, at, i) == k
  }

  lemma {:induction false} WrittenComesFrom(ps: seq<Packet>, sight: nat -> Sight, me: Me, at: nat, k: nat)
    returns (i: nat)
    requires k < |Relayed(ps, sight, me, at)|
    ensures ComesFrom(ps, sight, me, at, k, i) && Relayed(ps, sight, me, at)[k] == ps[i].body
    decreases |ps|
  {
    var here := if Passes(ps[0], sight(at), me) then 1 else 0;
    if k < here {
      i := 0;
    } else {
      var j := WrittenComesFrom(ps[1..], sight, me, at + 1, k - here);
      i := j + 1;
      forall m | 0 <= m < i
        ensures !Final(ps[m], sight(at + m), me)
      {
        if m > 0 {
          assert !Final(ps[1..][m - 1], sight(at + 1 + (m - 1)), me);
        }
      }
    }
  }

  /** Every packet that reaches the TUN device is a well-formed datagram from the
      session's own address, perhaps with padding, within the MTU, and no other
      session held its destination when it was checked. */
  lemma OnlyOwnTraffic(stream: Bytes, sight: nat -> Sight, me: Me, k: nat)
    requires k < |Relayed(ReadAll(stream).0, sight, me, 0)|
    ensures var b := Relayed(ReadAll(stream).0, sight, me, 0)[k];
      && IpFrame.Parse(b).Ends?
      && var d := IpFrame.Decoded(b);
      && IpFrame.Valid(d) && IpFrame.Encoded(d) <= b && d.src == me.ip && |b| <= me.mtu
      && exists i :: ComesFrom(ReadAll(stream).0, sight, me, 0, k, i)
           && (d.dst in sight(i).byIPv4 ==> sight(i).byIPv4[d.dst] == me.id)
  {
    var ps := ReadAll(stream).0;
    var i := WrittenComesFrom(ps, sight, me, 0, k);
    assert sight(0 + i) == sight(i);
    IpFrame.AcceptedIsEncoded(ps[i].body);
  }

  // ------------------------------------ in terms of the datagrams themselves

  /** The octets are a datagram of the session's own, perhaps with padding, within
      the MTU, whose destination no other session holds. */
  ghost predicate Carries(b: Bytes, byIPv4: map<IPv4, nat>, me: Me, d: IpFrame.Datagram, padding: Bytes) {
    && IpFrame.Valid(d) && b == IpFrame.Encoded(d) + padding && |b| <= me.mtu
    && d.src == me.ip && (d.dst !in byIPv4 || byIPv4[d.dst] == me.id)
  }

  ghost predicate Sendable(b: Bytes, byIPv4: map<IPv4, nat>, me: Me) {
    exists d, padding :: Carries(b, byIPv4, me, d, padding)
  }

  /** A hello that states a version, neither 0 nor at least 1, ends the session;
      so does a sendable datagram that the device does not take. */
  ghost predicate EndsSession(p: Packet, w: Sight, me: Me) {
    match p.kind
    case Control => w.control.Hello? && w.control.version.Some? && w.control.version.value < 0
    case Data => Sendable(p.body, w.byIPv4, me) && !w.tunOk
  }

  ghost predicate GetsOut(p: Packet, w: Sight, me: Me) {
    p.kind.Data? && Sendable(p.body, w.byIPv4, me) && w.tunOk
  }

  lemma SendableIsAllowed(b: Bytes, byIPv4: map<IPv4, nat>, me: Me)
    ensures Allowed(b, byIPv4, me) <==> Sendable(b, byIPv4, me)
  {
    if Allowed(b, byIPv4, me) {
      IpFrame.AcceptedIsEncoded(b);
      assert Carries(b, byIPv4, me, IpFrame.Decoded(b), b[IpFrame.TotalLength(b)..]);
    }
    if Sendable(b, byIPv4, me) {
      var d, padding :| Carries(b, byIPv4, me, d, padding);
      IpFrame.EncodedIsAccepted(d, padding);
    }
  }

  /** The first `i` frames all leave the session running. */
  ghost predicate Undisturbed(ps: seq<Packet>, sight: nat -> Sight, me: Me, i: nat) {
    i <= |ps| && forall j :: 0 <= j < i ==> !EndsSession(ps[j], sight(j), me)
  }

  /** The frames before `i` that get out. */
  ghost function OutBefore(ps: seq<Packet>, sight: nat -> Sight, me: Me, i: nat): set<nat> {
    set j: nat | j < i && j < |ps| && GetsOut(ps[j], sight(j), me)
  }

  lemma {:induction false} PassedNext(ps: seq<Packet>, sight: nat -> Sight, me: Me, at: nat, i: nat)
    requires i < |ps|
    ensures Passed(ps, sight, me, at, i + 1) ==
      Passed(ps, sight, me, at, i) + if Passes(ps[i], sight(at + i), me) then 1 else 0
  {
    if i > 0 {
      PassedNext(ps[1..], sight, me, at + 1, i - 1);
      assert at + 1 + (i - 1) == at + i;
    }
  }

  lemma PassedNextFromStart(ps: seq<Packet>, sight: nat -> Sight, me: Me, i: nat)
    requires i < |ps|
    ensures Passed(ps, sight, me, 0, i + 1) ==
      Passed(ps, sight, me, 0, i) + if Passes(ps[i], sight(i), me) then 1 else 0
  {
    PassedNext(ps, sight, me, 0, i);
    assert 0 + i == i;
  }

  lemma OutNext(ps: seq<Packet>, sight: nat -> Sight, me: Me, i: nat)
    requires i < |ps|
    ensures |OutBefore(ps, sight, me, i + 1)| ==
      |OutBefore(ps, sight, me, i)| + if Passes(ps[i], sight(i), me) then 1 else 0
  {
    SendableIsAllowed(ps[i].body, sight(i).byIPv4, me);
    var before, now := OutBefore(ps, sight, me, i), OutBefore(ps, sight, me, i + 1);
    if Passes(ps[i], sight(i), me) {
      assert now == before + {i};
    } else {
      assert now == before;
    }
  }

  lemma CountNext(ps: seq<Packet>, sight: nat -> Sight, me: Me, k: nat)
    requires k < |ps| && Passed(ps, sight, me, 0, k) == |OutBefore(ps, sight, me, k)|
    ensures Passed(ps, sight, me, 0, k + 1) == |OutBefore(ps, sight, me, k + 1)|
  {
    PassedNextFromStart(ps, sight, me, k);
    OutNext(ps, sight, me, k);
  }

  lemma {:induction false} PassedIsCount(ps: seq<Packet>, sight: nat -> Sight, me: Me, i: nat)
    requires i <= |ps|
    ensures Passed(ps, sight, me, 0, i) == |OutBefore(ps, sight, me, i)|
  {
    if i == 0 {
      assert OutBefore(ps, sight, me, 0) == {};
    } else {
      var k := i - 1;
      PassedIsCount(ps, sight, me, k);
      CountNext(ps, sight, me, k);
    }
  }

  /** Which frames end the session. */
  lemma EndsExactly(p: Packet, w: Sight, me: Me)
    ensures Final(p, w, me) <==> EndsSession(p, w, me)
  {
    SendableIsAllowed(p.body, w.byIPv4, me);
  }

  lemma UndisturbedIsLive(ps: seq<Packet>, sight: nat -> Sight, me: Me, i: nat)
    requires i <= |ps|
    ensures Undisturbed(ps, sight, me, i) <==> LiveUntil(ps, sight, me, 0, i)
  {
    forall j | 0 <= j < i ensures EndsSession(ps[j], sight(j), me) <==> Final(ps[j], sight(0 + j), me) {
      EndsExactly(ps[j], sight(j), me);
      assert sight(0 + j) == sight(j);
    }
  }

  /** Every sendable datagram gets out, whoever holds its destination or nobody:
      if no frame before it ended the session and the device takes it, it is
      written unchanged, right after those that got out before it. */
  lemma SendableGetsOut(ps: seq<Packet>, sight: nat -> Sight, me: Me, i: nat, d: IpFrame.Datagram, padding: Bytes)
    requires i < |ps| && Undisturbed(ps, sight, me, i) && ps[i].kind.Data? && sight(i).tunOk
    requires IpFrame.Valid(d) && ps[i].body == IpFrame.Encoded(d) + padding && |ps[i].body| <= me.mtu
    requires d.src == me.ip && (d.dst !in sight(i).byIPv4 || sight(i).byIPv4[d.dst] == me.id)
    ensures var out, k := Relayed(ps, sight, me, 0), |OutBefore(ps, sight, me, i)|;
      k < |out| && out[k] == IpFrame.Encoded(d) + padding
  {
    UndisturbedIsLive(ps, sight, me, i);
    RelayedMeaning(ps, sight, me, 0, i);
    PassedIsCount(ps, sight, me, i);
    assert Carries(ps[i].body, sight(i).byIPv4, me, d, padding);
    SendableIsAllowed(ps[i].body, sight(i).byIPv4, me);
    assert sight(0 + i) == sight(i);
  }

  lemma {:induction false} LengthAtEnd(ps: seq<Packet>, sight: nat -> Sight, me: Me, at: nat, i: nat)
    requires LiveUntil(ps, sight, me, at, i) && (i < |ps| ==> Final(ps[i], sight(at + i), me))
    ensures |Relayed(ps, sight, me, at)| == Passed(ps, sight, me, at, i)
    decreases |ps|
  {
    if i > 0 {
      assert !Final(ps[0], sight(at + 0), me);
      assert forall j :: 0 <= j < i - 1 ==> ps[1..][j] == ps[j + 1] && sight(at + 1 + j) == sight(at + (j + 1));
      assert at + 1 + (i - 1) == at + i;
      LengthAtEnd(ps[1..], sight, me, at + 1, i - 1);
    } else {
      assert at + 0 == at;
    }
  }

  /** And nothing else does: up to the frame that ends the session, or the end of
      the stream, as many packets are written as get out. */
  lemma NothingElseGetsOut(ps: seq<Packet>, sight: nat -> Sight, me: Me, i: nat)
    requires Undisturbed(ps, sight, me, i) && (i < |ps| ==> EndsSession(ps[i], sight(i), me))
    ensures |Relayed(ps, sight, me, 0)| == |OutBefore(ps, sight, me, i)|
  {
    UndisturbedIsLive(ps, sight, me, i);
    if i < |ps| {
      EndsExactly(ps[i], sight(i), me);
      assert sight(0 + i) == sight(i);
    }
    LengthAtEnd(ps, sight, me, 0, i);
    PassedIsCount(ps, sight, me, i);
  }
}
