/** internal/tunnel/server: the data plane as a whole. The TUN reader looks a
    session up and later queues the packet, the session's writer drains the queue
    onto the connection between keepalives, and sessions come and go meanwhile. */
module DataPlane {
  import opened Base
  import opened Frames
  import ConnWriters
  import IpFrame
  import opened Sessions

  type Bytes = Frames.Bytes

  /** One session: the frames its writer completed, the frame it failed on and how
      much of that one got out, and its queue. `offered` is every packet the
      TUN reader looked this session up for, `dropped` how many of them found the
      queue full. `ended` says that the writer has returned: that the session was
      kicked or hung up before shows only in writes that fail. */
  datatype Sess = Sess(
    ip: IPv4, queue: seq<Bytes>, frames: seq<Packet>, torn: Option<(Packet, nat)>,
    ended: bool, offered: seq<Bytes>, dropped: nat)

  /** `hand` is the packet between lookup and enqueue. */
  datatype State = State(byIPv4: map<IPv4, nat>, sessions: seq<Sess>, hand: Option<(nat, Bytes)>)

  const START := State(map[], [], None)

  /** `sent` is None for a write that succeeds, else how much of it got out. */
  datatype Event =
    | Join(ip: IPv4)
    | Leave(ip: IPv4)
    | Read(pkt: Bytes)
    | Enqueue
    | Deliver(i: nat, sent: Option<nat>)
    | Keepalive(i: nat, body: Bytes, sent: Option<nat>)
    | Reject(i: nat, body: Bytes, sent: Option<nat>)
    | WriterStops(i: nat)

  predicate Writable(s: State, i: nat) { i < |s.sessions| && !s.sessions[i].ended }

  /** The session registered for the packet's destination, if any. */
  function Lookup(byIPv4: map<IPv4, nat>, pkt: Bytes): Option<nat> {
    var h := IpFrame.Parse(pkt);
    if h.Ends? && h.dst in byIPv4 then Some(byIPv4[h.dst]) else None
  }

  predicate Enabled(s: State, e: Event) {
    match e
    case Join(ip) => ip !in s.byIPv4
    case Leave(ip) => ip in s.byIPv4
    case Read(pkt) => s.hand.None? && (Lookup(s.byIPv4, pkt).Some? ==> Lookup(s.byIPv4, pkt).value < |s.sessions|)
    case Enqueue => s.hand.Some? && s.hand.value.0 < |s.sessions|
    case Deliver(i, _) => Writable(s, i) && s.sessions[i].queue != []
    case Keepalive(i, _, _) => Writable(s, i)
    case Reject(i, _, _) => Writable(s, i)
    case WriterStops(i) => i < |s.sessions|
  }

  /** The writer sending one packet: a frame that does not fit is refused before
      anything is written, and any failure ends the writer. */
  function Written(x: Sess, p: Packet, sent: Option<nat>): Sess {
    if !Fits(p) then x.(torn := Some((p, 0)), ended := true)
    else if sent.None? then x.(frames := x.frames + [p])
    else x.(torn := Some((p, if sent.value <= |Encoded(p)| then sent.value else |Encoded(p)|)), ended := true)
  }

  function Step(s: State, e: Event): State
    requires Enabled(s, e)
  {
    match e
    case Join(ip) =>
      s.(byIPv4 := s.byIPv4[ip := |s.sessions|],
         sessions := s.sessions + [Sess(ip, [], [], None, false, [], 0)])
    case Leave(ip) => s.(byIPv4 := s.byIPv4 - {ip})
    case Read(pkt) =>
      var found := Lookup(s.byIPv4, pkt);
      if found.None? then s
      else
        var x := s.sessions[found.value];
        s.(hand := Some((found.value, pkt)), sessions := s.sessions[found.value := x.(offered := x.offered + [pkt])])
    case Enqueue =>
      var (i, pkt) := s.hand.value;
      var x := s.sessions[i];
      var x' := x.(queue := Queued(x.queue, pkt),
                   dropped := if |x.queue| < QUEUE_DEPTH then x.dropped else x.dropped + 1);
      s.(hand := None, sessions := s.sessions[i := x'])
    case Deliver(i, sent) =>
      var x := s.sessions[i];
      s.(sessions := s.sessions[i := Written(x.(queue := x.queue[1..]), Packet(Data, x.queue[0]), sent)])
    case Keepalive(i, body, sent) =>
      s.(sessions := s.sessions[i := Written(s.sessions[i], Packet(Control, body), sent)])
    case Reject(i, body, sent) =>
      s.(sessions := s.sessions[i := Written(s.sessions[i], Packet(Control, body), sent).(ended := true)])
    case WriterStops(i) => s.(sessions := s.sessions[i := s.sessions[i].(ended := true)])
  }

  predicate Runs(s: State, es: seq<Event>)
    decreases |es|
  {
    es == [] || (Enabled(s, es[0]) && Runs(Step(s, es[0]), es[1..]))
  }

  function Run(s: State, es: seq<Event>): State
    requires Runs(s, es)
    decreases |es|
  {
    if es == [] then s else Run(Step(s, es[0]), es[1..])
  }

  /** What one event sends to session `i`. */
  function SentBy(s: State, e: Event, i: nat): seq<Bytes> {
    if e.Read? && Lookup(s.byIPv4, e.pkt) == Some(i) then [e.pkt] else []
  }

  /** The packets of the run whose destination was registered to session `i` when
      they were read. */
  function SentTo(s: State, es: seq<Event>, i: nat): seq<Bytes>
    requires Runs(s, es)
    decreases |es|
  {
    if es == [] then []
    else SentBy(s, es[0], i) + SentTo(Step(s, es[0]), es[1..], i)
  }

  /** The bytes on the connection. */
  function Wire(x: Sess): Bytes
    requires AllFit(x.frames)
    requires x.torn.Some? && Fits(x.torn.value.0) ==> x.torn.value.1 <= |Encoded(x.torn.value.0)|
  {
    EncodedAll(x.frames)
    + (if x.torn.Some? && Fits(x.torn.value.0) then Encoded(x.torn.value.0)[..x.torn.value.1] else [])
  }

  /** The bodies of the data frames among `ps`. */
  function DataOf(ps: seq<Packet>): seq<Bytes> {
    if ps == [] then []
    else DataOf(ps[..|ps| - 1]) + (if ps[|ps| - 1].kind.Data? then [ps[|ps| - 1].body] else [])
  }

  /** `a` is `b` with some elements left out. */
  predicate Subsequence<T(==)>(a: seq<T>, b: seq<T>) {
    a == [] ||
    (b != [] &&
     ((a[|a| - 1] == b[|b| - 1] && Subsequence(a[..|a| - 1], b[..|b| - 1])) || Subsequence(a, b[..|b| - 1])))
  }

  lemma SubsequenceSnoc<T>(a: seq<T>, b: seq<T>, x: T)
    requires Subsequence(a, b)
    ensures Subsequence(a + [x], b + [x])
  {
    assert (a + [x])[..|a|] == a && (b + [x])[..|b|] == b;
  }

  lemma {:induction false} SubsequenceInit<T>(a: seq<T>, b: seq<T>)
    requires a != [] && Subsequence(a, b)
    ensures Subsequence(a[..|a| - 1], b)
  {
    if a[|a| - 1] == b[|b| - 1] && Subsequence(a[..|a| - 1], b[..|b| - 1]) {
      assert Subsequence(a[..|a| - 1], b[..|b| - 1]);
    } else {
      SubsequenceInit(a, b[..|b| - 1]);
    }
  }

  lemma {:induction false} SubsequencePrefix<T>(a: seq<T>, b: seq<T>, n: nat)
    requires n <= |a| && Subsequence(a, b)
    ensures Subsequence(a[..n], b)
  {
    if n < |a| {
      SubsequenceInit(a, b);
      SubsequencePrefix(a[..|a| - 1], b, n);
      assert a[..|a| - 1][..n] == a[..n];
    } else {
      assert a[..n] == a;
    }
  }

  lemma {:induction false} SubsequenceWhole<T>(a: seq<T>, b: seq<T>)
    requires Subsequence(a, b)
    ensures |a| <= |b| && (|a| == |b| ==> a == b)
  {
    if a != [] {
      if a[|a| - 1] == b[|b| - 1] && Subsequence(a[..|a| - 1], b[..|b| - 1]) {
        SubsequenceWhole(a[..|a| - 1], b[..|b| - 1]);
        if |a| == |b| {
          assert a == a[..|a| - 1] + [a[|a| - 1]];
          assert b == b[..|b| - 1] + [b[|b| - 1]];
        }
      } else {
        SubsequenceWhole(a, b[..|b| - 1]);
      }
    }
  }

  // ------------------------------------------------------------- invariant

  function Torn(x: Sess): seq<Bytes> {
    if x.torn.Some? && x.torn.value.0.kind.Data? then [x.torn.value.0.body] else []
  }

  /** The packet in the reader's hand, if it is for session `i`. */
  function InHand(s: State, i: nat): seq<Bytes> {
    if s.hand.Some? && s.hand.value.0 == i then [s.hand.value.1] else []
  }

  /** Everything offered that was not dropped, in the order it was offered:
      delivered, broken off, queued, in hand. */
  function Kept(x: Sess, inHand: seq<Bytes>): seq<Bytes> {
    DataOf(x.frames) + Torn(x) + x.queue + inHand
  }

  predicate WireInv(x: Sess) {
    && AllFit(x.frames)
    && (x.torn.Some? ==> x.ended)
    && (x.torn.Some? && Fits(x.torn.value.0) ==> x.torn.value.1 <= |Encoded(x.torn.value.0)|)
    && |x.queue| <= QUEUE_DEPTH
  }

  predicate OfferedInv(x: Sess) {
    forall k :: 0 <= k < |x.offered| ==> IpFrame.Parse(x.offered[k]).Ends? && IpFrame.Parse(x.offered[k]).dst == x.ip
  }

  /** `kept` is what was offered less what was dropped. */
  predicate Accounted(kept: seq<Bytes>, offered: seq<Bytes>, dropped: nat) {
    Subsequence(kept, offered) && |kept| + dropped == |offered|
  }

  predicate SessInv(x: Sess, inHand: seq<Bytes>) {
    WireInv(x) && OfferedInv(x) && Accounted(Kept(x, inHand), x.offered, x.dropped)
  }

  predicate Registered(s: State) {
    forall ip :: ip in s.byIPv4 ==> s.byIPv4[ip] < |s.sessions| && s.sessions[s.byIPv4[ip]].ip == ip
  }

  predicate Inv(s: State) {
    && Registered(s)
    && (s.hand.Some? ==> s.hand.value.0 < |s.sessions|)
    && forall i :: 0 <= i < |s.sessions| ==> SessInv(s.sessions[i], InHand(s, i))
  }

  lemma DataSnoc(ps: seq<Packet>, p: Packet)
    ensures DataOf(ps + [p]) == DataOf(ps) + (if p.kind.Data? then [p.body] else [])
  {
    assert (ps + [p])[..|ps|] == ps;
  }

  lemma MoveHead<T>(a: seq<T>, q: seq<T>, h: seq<T>)
    requires q != []
    ensures a + [] + q + h == a + [q[0]] + q[1..] + h == a + [q[0]] + [] + q[1..] + h
  {
    assert q == [q[0]] + q[1..];
  }

  /** Sending the head of the queue moves it from the queue to the frames, or to
      the frame the writer failed on. */
  lemma WrittenKept(x: Sess, sent: Option<nat>, inHand: seq<Bytes>)
    requires x.torn.None? && x.queue != []
    ensures Kept(Written(x.(queue := x.queue[1..]), Packet(Data, x.queue[0]), sent), inHand) == Kept(x, inHand)
  {
    DataSnoc(x.frames, Packet(Data, x.queue[0]));
    MoveHead(DataOf(x.frames), x.queue, inHand);
  }

  lemma WrittenWire(x: Sess, p: Packet, sent: Option<nat>)
    requires WireInv(x) && !x.ended
    ensures var x' := Written(x, p, sent);
      WireInv(x') && x' == x.(frames := x'.frames, torn := x'.torn, ended := x'.ended)
  {
  }

  lemma WrittenData(x: Sess, sent: Option<nat>, inHand: seq<Bytes>)
    requires SessInv(x, inHand) && !x.ended && x.queue != []
    ensures SessInv(Written(x.(queue := x.queue[1..]), Packet(Data, x.queue[0]), sent), inHand)
  {
    var rest := x.(queue := x.queue[1..]);
    assert WireInv(rest);
    WrittenWire(rest, Packet(Data, x.queue[0]), sent);
    WrittenKept(x, sent, inHand);
  }

  lemma WrittenControl(x: Sess, body: Bytes, sent: Option<nat>, inHand: seq<Bytes>)
    requires SessInv(x, inHand) && !x.ended
    ensures SessInv(Written(x, Packet(Control, body), sent), inHand)
  {
    DataSnoc(x.frames, Packet(Control, body));
    assert DataOf(x.frames) + [] == DataOf(x.frames);
    assert Kept(Written(x, Packet(Control, body), sent), inHand) == Kept(x, inHand);
  }

  lemma OfferedPacket(x: Sess, pkt: Bytes)
    requires SessInv(x, []) && IpFrame.Parse(pkt).Ends? && IpFrame.Parse(pkt).dst == x.ip
    ensures SessInv(x.(offered := x.offered + [pkt]), [pkt])
  {
    var front := DataOf(x.frames) + Torn(x) + x.queue;
    assert front + [] + [pkt] == front + [pkt];
    SubsequenceSnoc(Kept(x, []), x.offered, pkt);
  }

  lemma MoveTail<T>(a: seq<T>, b: seq<T>, q: seq<T>, x: T)
    ensures a + b + (q + [x]) + [] == a + b + q + [x]
  {
  }

  lemma EnqueuedPacket(x: Sess, pkt: Bytes)
    requires SessInv(x, [pkt]) && |x.queue| < QUEUE_DEPTH
    ensures SessInv(x.(queue := x.queue + [pkt]), [])
  {
    MoveTail(DataOf(x.frames), Torn(x), x.queue, pkt);
  }

  lemma DroppedPacket(x: Sess, pkt: Bytes)
    requires SessInv(x, [pkt])
    ensures SessInv(x.(dropped := x.dropped + 1), [])
  {
    var kept := Kept(x, [pkt]);
    SubsequenceInit(kept, x.offered);
    assert Kept(x.(dropped := x.dropped + 1), []) == kept[..|kept| - 1];
  }

  /** A step that touches one session. */
  lemma OneChanged(s: State, t: State, i: nat, x: Sess)
    requires Inv(s) && i < |s.sessions|
    requires t.sessions == s.sessions[i := x] && x.ip == s.sessions[i].ip && t.byIPv4 == s.byIPv4
    requires t.hand == s.hand || (s.hand.None? && t.hand.value.0 == i) || (t.hand.None? && s.hand.value.0 == i)
    requires SessInv(x, InHand(t, i))
    ensures Inv(t)
  {
    forall j | 0 <= j < |t.sessions|
      ensures SessInv(t.sessions[j], InHand(t, j))
    {
      if j != i {
        assert InHand(t, j) == InHand(s, j);
      }
    }
  }

  lemma JoinKeeps(s: State, ip: IPv4)
    requires Inv(s) && ip !in s.byIPv4
    ensures Inv(Step(s, Join(ip)))
  {
    var t := Step(s, Join(ip));
    var x := t.sessions[|s.sessions|];
    assert Kept(x, []) == [];
    forall i | 0 <= i < |t.sessions|
      ensures SessInv(t.sessions[i], InHand(t, i))
    {
      if i < |s.sessions| {
        assert t.sessions[i] == s.sessions[i] && InHand(t, i) == InHand(s, i);
      }
    }
  }

  lemma LeaveKeeps(s: State, ip: IPv4)
    requires Inv(s) && ip in s.byIPv4
    ensures Inv(Step(s, Leave(ip)))
  {
    var t := Step(s, Leave(ip));
    assert forall i :: 0 <= i < |s.sessions| ==> InHand(t, i) == InHand(s, i);
  }

  lemma ReadKeeps(s: State, pkt: Bytes)
    requires Inv(s) && Enabled(s, Read(pkt))
    ensures Inv(Step(s, Read(pkt)))
  {
    var t := Step(s, Read(pkt));
    var found := Lookup(s.byIPv4, pkt);
    if found.Some? {
      assert InHand(s, found.value) == [];
      OfferedPacket(s.sessions[found.value], pkt);
      OneChanged(s, t, found.value, t.sessions[found.value]);
    }
  }

  lemma EnqueueKeeps(s: State)
    requires Inv(s) && Enabled(s, Enqueue)
    ensures Inv(Step(s, Enqueue))
  {
    var t := Step(s, Enqueue);
    var (i, pkt) := s.hand.value;
    assert InHand(s, i) == [pkt] && InHand(t, i) == [];
    if |s.sessions[i].queue| < QUEUE_DEPTH {
      EnqueuedPacket(s.sessions[i], pkt);
    } else {
      DroppedPacket(s.sessions[i], pkt);
    }
    OneChanged(s, t, i, t.sessions[i]);
  }

  lemma WriterKeeps(s: State, i: nat, x: Sess)
    requires Inv(s) && i < |s.sessions| && x.ip == s.sessions[i].ip && SessInv(x, InHand(s, i))
    ensures Inv(s.(sessions := s.sessions[i := x]))
  {
    var t := s.(sessions := s.sessions[i := x]);
    assert InHand(t, i) == InHand(s, i);
    OneChanged(s, t, i, x);
  }

  lemma StoppingKeeps(x: Sess, inHand: seq<Bytes>)
    requires SessInv(x, inHand)
    ensures SessInv(x.(ended := true), inHand)
  {
    assert Kept(x.(ended := true), inHand) == Kept(x, inHand);
  }

  lemma StepKeeps(s: State, e: Event)
    requires Inv(s) && Enabled(s, e)
    ensures Inv(Step(s, e))
  {
    match e {
      case Join(ip) => JoinKeeps(s, ip);
      case Leave(ip) => LeaveKeeps(s, ip);
      case Read(pkt) => ReadKeeps(s, pkt);
      case Enqueue => EnqueueKeeps(s);
      case Deliver(i, sent) =>
        var x := s.sessions[i];
        WrittenData(x, sent, InHand(s, i));
        WriterKeeps(s, i, Written(x.(queue := x.queue[1..]), Packet(Data, x.queue[0]), sent));
      case Keepalive(i, body, sent) =>
        WrittenControl(s.sessions[i], body, sent, InHand(s, i));
        WriterKeeps(s, i, Written(s.sessions[i], Packet(Control, body), sent));
      case Reject(i, body, sent) =>
        WrittenControl(s.sessions[i], body, sent, InHand(s, i));
        StoppingKeeps(Written(s.sessions[i], Packet(Control, body), sent), InHand(s, i));
        WriterKeeps(s, i, Written(s.sessions[i], Packet(Control, body), sent).(ended := true));
      case WriterStops(i) =>
        StoppingKeeps(s.sessions[i], InHand(s, i));
        WriterKeeps(s, i, s.sessions[i].(ended := true));
    }
  }

  lemma {:induction false} RunKeeps(s: State, es: seq<Event>)
    requires Inv(s) && Runs(s, es)
    ensures Inv(Run(s, es))
    decreases |es|
  {
    if es != [] {
      StepKeeps(s, es[0]);
      RunKeeps(Step(s, es[0]), es[1..]);
    }
  }

  // ------------------------------------------------------------ the writer

  /** One write of the session's writer does to the connection what Written does to
      the session. */
  method Send(conn: Conn, ghost x: Sess, p: Packet) returns (ok: bool, ghost sent: Option<nat>)
    requires WireInv(x) && !x.ended && !conn.broken && conn.wire == Wire(x)
    modifies conn
    ensures WireInv(Written(x, p, sent)) && conn.wire == Wire(Written(x, p, sent))
    ensures ok <==> !Written(x, p, sent).ended
    ensures ok ==> !conn.broken
  {
    ghost var before := conn.wire;
    assert before == EncodedAll(x.frames) by {
      assert EncodedAll(x.frames) + [] == EncodedAll(x.frames);
    }
    var error := WritePacket(conn, p);
    ok, sent := error.None?, None;
    if error.None? {
      EncodedAllSnoc(x.frames, p);
      assert Wire(Written(x, p, sent)) == EncodedAll(x.frames + [p]) + [];
    } else if Fits(p) {
      assert error.value == FrameTooLarge || error.value == WriteFailed;
      ghost var k :| 0 <= k <= |Encoded(p)| && conn.wire == before + Encoded(p)[..k];
      sent := Some(k);
    }
  }

  // --------------------------------------------------------------- results

  function OfferedTo(s: State, i: nat): seq<Bytes> {
    if i < |s.sessions| then s.sessions[i].offered else []
  }

  lemma StepOffers(s: State, e: Event, i: nat)
    requires Registered(s) && Enabled(s, e)
    ensures OfferedTo(Step(s, e), i) == OfferedTo(s, i) + SentBy(s, e, i)
  {
    match e
    case Read(_) =>
    case Enqueue =>
    case _ => assert OfferedTo(s, i) + [] == OfferedTo(s, i);
  }

  lemma StepKeepsRegistered(s: State, e: Event)
    requires Registered(s) && Enabled(s, e)
    ensures Registered(Step(s, e))
  {
  }

  lemma {:induction false} OfferedIsSentTo(s: State, es: seq<Event>, i: nat)
    requires Registered(s) && Runs(s, es)
    ensures OfferedTo(Run(s, es), i) == OfferedTo(s, i) + SentTo(s, es, i)
    decreases |es|
  {
    if es == [] {
      assert OfferedTo(s, i) + [] == OfferedTo(s, i);
    } else {
      StepKeepsRegistered(s, es[0]);
      StepOffers(s, es[0], i);
      var t := Step(s, es[0]);
      OfferedIsSentTo(t, es[1..], i);
      var before, now, later := OfferedTo(s, i), SentBy(s, es[0], i), SentTo(t, es[1..], i);
      Assoc(before, now, later);
    }
  }

  lemma SentFromStart(es: seq<Event>, i: nat)
    requires Runs(START, es)
    ensures OfferedTo(Run(START, es), i) == SentTo(START, es, i)
  {
    OfferedIsSentTo(START, es, i);
    var sent := SentTo(START, es, i);
    assert OfferedTo(START, i) == [] && [] + sent == sent;
  }

  lemma OfferedFromStart(es: seq<Event>, i: nat)
    requires Runs(START, es) && i < |Run(START, es).sessions|
    ensures Run(START, es).sessions[i].offered == SentTo(START, es, i)
    ensures SessInv(Run(START, es).sessions[i], InHand(Run(START, es), i))
  {
    RunKeeps(START, es);
    SentFromStart(es, i);
  }

  /** The wire decodes to the completed frames, and perhaps the one that failed. */
  lemma DecodedIsPrefix(x: Sess)
    requires WireInv(x)
    ensures var got := ReadAll(Wire(x)).0;
      got == x.frames || (x.torn.Some? && got == x.frames + [x.torn.value.0])
    ensures !x.ended ==> ReadAll(Wire(x)) == (x.frames, EOF)
  {
    if x.torn.Some? && Fits(x.torn.value.0) {
      var (p, k) := x.torn.value;
      ConnWriters.ReadAllOfTorn(x.frames, p, k, Wire(x));
    } else {
      assert Wire(x) == EncodedAll(x.frames);
      RoundTrip(x.frames);
    }
  }

  lemma DecodedIsKept(x: Sess, inHand: seq<Bytes>)
    requires SessInv(x, inHand)
    ensures DataOf(ReadAll(Wire(x)).0) <= Kept(x, inHand)
  {
    DecodedIsPrefix(x);
    if x.torn.Some? {
      DataSnoc(x.frames, x.torn.value.0);
    }
  }

  /** What the client decodes from its connection, at any moment: only packets whose
      destination was registered to this session when they were read from the TUN
      device, each addressed to this session's own address, in the order they were
      read and byte for byte. */
  lemma DeliveredInOrder(es: seq<Event>, i: nat)
    requires Runs(START, es) && i < |Run(START, es).sessions|
    ensures var x := Run(START, es).sessions[i];
      && WireInv(x)
      && Subsequence(DataOf(ReadAll(Wire(x)).0), SentTo(START, es, i))
      && forall k :: 0 <= k < |SentTo(START, es, i)| ==>
           IpFrame.Parse(SentTo(START, es, i)[k]).Ends? && IpFrame.Parse(SentTo(START, es, i)[k]).dst == x.ip
  {
    OfferedFromStart(es, i);
    var x := Run(START, es).sessions[i];
    var kept, data := Kept(x, InHand(Run(START, es), i)), DataOf(ReadAll(Wire(x)).0);
    DecodedIsKept(x, InHand(Run(START, es), i));
    assert kept[..|data|] == data;
    SubsequencePrefix(kept, x.offered, |data|);
  }

  /** How many packets for session `i` found 64 others waiting. */
  function Overflows(s: State, es: seq<Event>, i: nat): nat
    requires Runs(s, es)
    decreases |es|
  {
    if es == [] then 0
    else
      var full := es[0].Enqueue? && s.hand.value.0 == i && |s.sessions[i].queue| >= 64;
      (if full then 1 else 0) + Overflows(Step(s, es[0]), es[1..], i)
  }

  function DroppedBy(s: State, i: nat): nat {
    if i < |s.sessions| then s.sessions[i].dropped else 0
  }

  lemma {:induction false} DroppedIsOverflows(s: State, es: seq<Event>, i: nat)
    requires Runs(s, es) && Registered(s)
    ensures DroppedBy(Run(s, es), i) == DroppedBy(s, i) + Overflows(s, es, i)
    decreases |es|
  {
    if es != [] {
      StepKeepsRegistered(s, es[0]);
      DroppedIsOverflows(Step(s, es[0]), es[1..], i);
    }
  }

  /** Every packet sent to a session is accounted for: delivered, the one its
      connection broke on, queued, in the reader's hand, or dropped because 64
      others were waiting. If that never happens it is all of them, in order. */
  lemma NothingVanishes(es: seq<Event>, i: nat)
    requires Runs(START, es) && i < |Run(START, es).sessions|
    ensures var s := Run(START, es);
      var kept := Kept(s.sessions[i], InHand(s, i));
      && |kept| + Overflows(START, es, i) == |SentTo(START, es, i)|
      && (Overflows(START, es, i) == 0 <==> kept == SentTo(START, es, i))
  {
    OfferedFromStart(es, i);
    DroppedIsOverflows(START, es, i);
    var s := Run(START, es);
    SubsequenceWhole(Kept(s.sessions[i], InHand(s, i)), s.sessions[i].offered);
  }

  /** The frames the writer of session `i` sends whole, in order: queued packets,
      keepalives and a final error. */
  function FramesBy(s: State, e: Event, i: nat): seq<Packet>
    requires Enabled(s, e)
  {
    match e
    case Deliver(j, None) =>
      if i == j && |s.sessions[i].queue[0]| <= 65534 then [Packet(Data, s.sessions[i].queue[0])] else []
    case Keepalive(j, body, None) => if i == j && |body| <= 65534 then [Packet(Control, body)] else []
    case Reject(j, body, None) => if i == j && |body| <= 65534 then [Packet(Control, body)] else []
    case _ => []
  }

  function FramesOf(s: State, es: seq<Event>, i: nat): seq<Packet>
    requires Runs(s, es)
    decreases |es|
  {
    if es == [] then [] else FramesBy(s, es[0], i) + FramesOf(Step(s, es[0]), es[1..], i)
  }

  function FramesAt(s: State, i: nat): seq<Packet> {
    if i < |s.sessions| then s.sessions[i].frames else []
  }

  lemma StepFrames(s: State, e: Event, i: nat)
    requires Registered(s) && Enabled(s, e)
    ensures FramesAt(Step(s, e), i) == FramesAt(s, i) + FramesBy(s, e, i)
  {
    assert FramesAt(s, i) + [] == FramesAt(s, i);
  }

  lemma {:induction false} FramesFrom(s: State, es: seq<Event>, i: nat)
    requires Registered(s) && Runs(s, es)
    ensures FramesAt(Run(s, es), i) == FramesAt(s, i) + FramesOf(s, es, i)
    decreases |es|
  {
    if es == [] {
      assert FramesAt(s, i) + [] == FramesAt(s, i);
    } else {
      StepKeepsRegistered(s, es[0]);
      StepFrames(s, es[0], i);
      FramesFrom(Step(s, es[0]), es[1..], i);
      Assoc(FramesAt(s, i), FramesBy(s, es[0], i), FramesOf(Step(s, es[0]), es[1..], i));
    }
  }

  lemma FramesFromStart(es: seq<Event>, i: nat)
    requires Runs(START, es)
    ensures FramesAt(Run(START, es), i) == FramesOf(START, es, i)
  {
    FramesFrom(START, es, i);
    var sent := FramesOf(START, es, i);
    assert FramesAt(START, i) == [] && [] + sent == sent;
  }

  /** What the client decodes begins with every frame whose write went through, data
      and control, in the order the writer sent them. */
  lemma DecodedAreTheWrites(es: seq<Event>, i: nat)
    requires Runs(START, es) && i < |Run(START, es).sessions|
    ensures var x := Run(START, es).sessions[i];
      && WireInv(x)
      && FramesOf(START, es, i) <= ReadAll(Wire(x)).0
      && |ReadAll(Wire(x)).0| <= |FramesOf(START, es, i)| + if x.torn.Some? then 1 else 0
  {
    RunKeeps(START, es);
    FramesFromStart(es, i);
    DecodedIsPrefix(Run(START, es).sessions[i]);
  }

  // ------------------------------------------------------------ who is sent to

  lemma {:induction false} RunConcat(s: State, a: seq<Event>, b: seq<Event>)
    ensures Runs(s, a + b) <==> Runs(s, a) && Runs(Run(s, a), b)
    ensures Runs(s, a + b) ==> Run(s, a + b) == Run(Run(s, a), b)
    decreases |a|
  {
    if a == [] {
      assert a + b == b;
    } else {
      assert (a + b)[0] == a[0] && (a + b)[1..] == a[1..] + b;
      if Enabled(s, a[0]) {
        RunConcat(Step(s, a[0]), a[1..], b);
      }
    }
  }

  /** The state before event `k` of a run. */
  ghost function Before(es: seq<Event>, k: nat): State
    requires Runs(START, es) && k <= |es|
  {
    RunConcat(START, es[..k], es[k..]);
    assert es[..k] + es[k..] == es;
    Run(START, es[..k])
  }

  lemma BeforeNext(es: seq<Event>, k: nat)
    requires Runs(START, es) && k < |es|
    ensures Enabled(Before(es, k), es[k]) && Before(es, k + 1) == Step(Before(es, k), es[k])
  {
    assert es == es[..k] + es[k..] && es[..k + 1] == es[..k] + [es[k]] && es == es[..k + 1] + es[k + 1..];
    RunConcat(START, es[..k], es[k..]);
    RunConcat(START, es[..k + 1], es[k + 1..]);
    RunConcat(START, es[..k], [es[k]]);
    var t := Run(START, es[..k]);
    assert [es[k]][1..] == [];
    assert Run(t, [es[k]]) == Run(Step(t, es[k]), []);
  }

  /** Event `j` brought in the session that still has the address at event `k`. */
  ghost predicate Brought(es: seq<Event>, ip: IPv4, j: nat, k: nat) {
    j < k <= |es| && es[j] == Join(ip) && forall m :: j < m < k ==> es[m] != Leave(ip)
  }

  ghost predicate Present(es: seq<Event>, ip: IPv4, k: nat) {
    exists j: nat :: j < k && Brought(es, ip, j, k)
  }

  lemma PresentNext(es: seq<Event>, ip: IPv4, k: nat)
    requires k < |es|
    ensures Present(es, ip, k + 1) <==> es[k] == Join(ip) || (es[k] != Leave(ip) && Present(es, ip, k))
  {
    if es[k] == Join(ip) {
      assert Brought(es, ip, k, k + 1);
    }
    if es[k] != Leave(ip) && Present(es, ip, k) {
      var j: nat :| j < k && Brought(es, ip, j, k);
      assert Brought(es, ip, j, k + 1);
    }
    if Present(es, ip, k + 1) && es[k] != Join(ip) {
      var j: nat :| j < k + 1 && Brought(es, ip, j, k + 1);
      assert Brought(es, ip, j, k);
    }
  }

  /** An address is listed exactly while the session that joined under it has not
      left. */
  lemma {:induction false} ListedExactly(es: seq<Event>, ip: IPv4, k: nat)
    requires Runs(START, es) && k <= |es|
    ensures ip in Before(es, k).byIPv4 <==> Present(es, ip, k)
  {
    if k == 0 {
      assert es[..0] == [];
    } else {
      ListedExactly(es, ip, k - 1);
      BeforeNext(es, k - 1);
      PresentNext(es, ip, k - 1);
    }
  }

  /** And it is listed for that very session. */
  lemma {:induction false} ListedFor(es: seq<Event>, ip: IPv4, j: nat, k: nat)
    requires Runs(START, es) && Brought(es, ip, j, k)
    ensures ip in Before(es, k).byIPv4 && Before(es, k).byIPv4[ip] == |Before(es, j).sessions|
    decreases k
  {
    BeforeNext(es, k - 1);
    if j < k - 1 {
      assert Brought(es, ip, j, k - 1);
      ListedFor(es, ip, j, k - 1);
    }
  }

  /** Whom a packet is sent to: a datagram read from the TUN device goes to the
      session that joined under its destination and has not left since, and to
      nobody if there is none. */
  lemma SentExactlyTo(es: seq<Event>, k: nat, d: IpFrame.Datagram, padding: Bytes, i: nat)
    requires Runs(START, es) && k < |es|
    requires IpFrame.Valid(d) && es[k] == Read(IpFrame.Encoded(d) + padding)
    ensures SentBy(Before(es, k), es[k], i) ==
      if exists j: nat :: j < k && Brought(es, d.dst, j, k) && i == |Before(es, j).sessions|
      then [IpFrame.Encoded(d) + padding] else []
  {
    IpFrame.EncodedIsAccepted(d, padding);
    ListedExactly(es, d.dst, k);
    forall j: nat | Brought(es, d.dst, j, k) ensures Before(es, k).byIPv4[d.dst] == |Before(es, j).sessions| {
      ListedFor(es, d.dst, j, k);
    }
  }

  /** The writer's last act: an error frame, or a write that failed. */
  predicate EndsWriter(e: Event, i: nat) {
    || (e.Reject? && e.i == i)
    || ((e.Keepalive? || e.Deliver?) && e.i == i && e.sent.Some?)
    || (e.WriterStops? && e.i == i)
  }

  lemma {:induction false} EndedStays(s: State, es: seq<Event>, i: nat)
    requires Runs(s, es) && i < |s.sessions| && s.sessions[i].ended
    ensures var t := Run(s, es);
      && i < |t.sessions| && t.sessions[i].ended
      && t.sessions[i].frames == s.sessions[i].frames && t.sessions[i].torn == s.sessions[i].torn
    decreases |es|
  {
    if es != [] {
      EndedStays(Step(s, es[0]), es[1..], i);
    }
  }

  /** Nothing is written to a session after its error frame or a failed write. */
  lemma NothingAfterTheLast(es: seq<Event>, k: nat, i: nat)
    requires Runs(START, es) && k < |es| && EndsWriter(es[k], i)
    ensures i < |Before(es, k + 1).sessions| && i < |Run(START, es).sessions|
    ensures var last, now := Before(es, k + 1).sessions[i], Run(START, es).sessions[i];
      now.ended && now.frames == last.frames && now.torn == last.torn
  {
    BeforeNext(es, k);
    assert es == es[..k + 1] + es[k + 1..];
    RunConcat(START, es[..k + 1], es[k + 1..]);
    EndedStays(Before(es, k + 1), es[k + 1..], i);
  }
}
