/** internal/frame/frame.go and the packet layer of internal/tunnel/protocol.go:
    length-prefixed frames over a byte stream, each carrying one typed packet. */
module Frames {
  import opened Base

  type Bytes = seq<Octet>

  const MAX_FRAME_SIZE: nat := 65535

  datatype Kind = Control | Data

  datatype Packet = Packet(kind: Kind, body: Bytes)

  const TYPE_CONTROL: Octet := 1
  const TYPE_DATA: Octet := 2

  function Tag(k: Kind): Octet {
    if k.Control? then TYPE_CONTROL else TYPE_DATA
  }

  function Payload(p: Packet): Bytes {
    [Tag(p.kind)] + p.body
  }

  predicate Fits(p: Packet) {
    |Payload(p)| <= MAX_FRAME_SIZE
  }

  /** The two-octet big-endian length. */
  function Header(n: nat): Bytes
    requires n <= MAX_FRAME_SIZE
  {
    [(n / 256) as Octet, (n % 256) as Octet]
  }

  function Encoded(p: Packet): Bytes
    requires Fits(p)
  {
    Header(|Payload(p)|) + Payload(p)
  }

  predicate AllFit(ps: seq<Packet>) {
    forall i :: 0 <= i < |ps| ==> Fits(ps[i])
  }

  function EncodedAll(ps: seq<Packet>): Bytes
    requires AllFit(ps)
  {
    if ps == [] then [] else Encoded(ps[0]) + EncodedAll(ps[1..])
  }

  /** Why a read failed. InPayload is the error text frame.go wraps around a
      failure after the header. */
  datatype ReadError =
    | EOF
    | UnexpectedEOF
    | InPayload(cause: ReadError)
    | EmptyFrame
    | UnknownType(tag: Octet)

  /** errors.Is(err, io.EOF): sees through the wrapping. */
  predicate IsEOF(e: ReadError) {
    e == EOF || (e.InPayload? && IsEOF(e.cause))
  }

  datatype Read<+T> = Got(value: T, rest: Bytes) | Failed(error: ReadError)

  /** io.ReadFull: end of stream is EOF before the first octet and UnexpectedEOF
      after it. */
  function ReadFull(s: Bytes, n: nat): Read<Bytes> {
    if |s| >= n then Got(s[..n], s[n..])
    else if s == [] then Failed(EOF)
    else Failed(UnexpectedEOF)
  }

  function ReadFrame(s: Bytes): (r: Read<Bytes>)
    ensures r.Got? ==> |r.rest| < |s|
  {
    match ReadFull(s, 2)
    case Failed(e) => Failed(e)
    case Got(header, rest) =>
      var n := header[0] as int * 256 + header[1] as int;
      if n == 0 then Got([], rest)
      else
        match ReadFull(rest, n)
        case Failed(e) => Failed(InPayload(e))
        case Got(payload, rest') => Got(payload, rest')
  }

  function ReadPacket(s: Bytes): (r: Read<Packet>)
    ensures r.Got? ==> |r.rest| < |s|
  {
    match ReadFrame(s)
    case Failed(e) => Failed(e)
    case Got(payload, rest) =>
      if payload == [] then Failed(EmptyFrame)
      else if payload[0] == TYPE_CONTROL then Got(Packet(Control, payload[1..]), rest)
      else if payload[0] == TYPE_DATA then Got(Packet(Data, payload[1..]), rest)
      else Failed(UnknownType(payload[0]))
  }

  /** Reading packet after packet until the first error, as every reader does. */
  function ReadAll(s: Bytes): (seq<Packet>, ReadError)
    decreases |s|
  {
    match ReadPacket(s)
    case Failed(e) => ([], e)
    case Got(p, rest) =>
      var (ps, e) := ReadAll(rest);
      ([p] + ps, e)
  }

  lemma ReadPacketOfEncoded(p: Packet, tail: Bytes)
    requires Fits(p)
    ensures ReadPacket(Encoded(p) + tail) == Got(p, tail)
  {
    var s := Encoded(p) + tail;
    var n := |Payload(p)|;
    assert s[..2] == Header(n) && s[2..] == Payload(p) + tail;
    assert s[2..][..n] == Payload(p) && s[2..][n..] == tail;
    assert Payload(p)[1..] == p.body;
  }

  /** The layout: two octets of length, most significant first, counting the type
      octet and the body that follow; 1 for control and 2 for data. A body fits up
      to 65534 octets. */
  lemma Layout(p: Packet)
    ensures Fits(p) <==> |p.body| <= 65534
    ensures Fits(p) ==>
      var b := Encoded(p);
      && |b| == 3 + |p.body| && b[0] as int * 256 + b[1] as int == 1 + |p.body|
      && b[2] == (if p.kind.Control? then 1 else 2) && b[3..] == p.body
  {
  }

  /** A packet is read exactly if its encoding comes next: nothing else reads as
      one. */
  lemma ReadPacketExactlyIf(s: Bytes, p: Packet, rest: Bytes)
    ensures ReadPacket(s) == Got(p, rest) <==> Fits(p) && s == Encoded(p) + rest
  {
    if ReadPacket(s) == Got(p, rest) {
      var n := s[0] as int * 256 + s[1] as int;
      DivUnique(n, 256, s[0] as int, s[1] as int);
      assert s[2..][..n] == [Tag(p.kind)] + p.body;
      assert s == s[..2] + (s[2..][..n] + s[2..][n..]);
      assert s[..2] == Header(n);
    } else if Fits(p) && s == Encoded(p) + rest {
      ReadPacketOfEncoded(p, rest);
    }
  }

  /** Frames that carry no packet end the reading with their own errors. */
  lemma MalformedFrames(payload: Bytes, rest: Bytes)
    requires |payload| <= 65535 && (payload == [] || payload[0] !in {1, 2})
    ensures ReadPacket(Header(|payload|) + payload + rest) ==
      Failed(if payload == [] then EmptyFrame else UnknownType(payload[0]))
  {
    var s := Header(|payload|) + payload + rest;
    assert s[..2] == Header(|payload|) && s[2..] == payload + rest;
    assert s[2..][..|payload|] == payload;
  }

  /** A stream cut strictly inside a frame, or at its start. */
  lemma ReadPacketOfCut(p: Packet, k: nat)
    requires Fits(p) && k < |Encoded(p)|
    ensures ReadPacket(Encoded(p)[..k]) == Failed(
      if k == 0 then EOF else if k == 1 then UnexpectedEOF
      else if k == 2 then InPayload(EOF) else InPayload(UnexpectedEOF))
  {
    var s := Encoded(p)[..k];
    if k >= 2 {
      assert s[..2] == Header(|Payload(p)|);
    }
  }

  /** How many whole frames the first `k` octets hold. */
  function WholeFrames(ps: seq<Packet>, k: nat): (m: nat)
    requires AllFit(ps)
    ensures m <= |ps|
  {
    if ps == [] || k < |Encoded(ps[0])| then 0
    else 1 + WholeFrames(ps[1..], k - |Encoded(ps[0])|)
  }

  /** How far into the next frame the cut falls; zero on a frame boundary. */
  function Overhang(ps: seq<Packet>, k: nat): nat
    requires AllFit(ps)
  {
    if ps == [] then 0
    else if k < |Encoded(ps[0])| then k
    else Overhang(ps[1..], k - |Encoded(ps[0])|)
  }

  /** The first `k` octets are `m` whole frames and `j` octets of the next. */
  ghost predicate CutsAt(ps: seq<Packet>, k: nat, m: nat, j: nat)
    requires AllFit(ps) && k <= |EncodedAll(ps)|
  {
    && m <= |ps|
    && (if m < |ps| then j < |Encoded(ps[m])| else j == 0)
    && EncodedAll(ps)[..k] == EncodedAll(ps[..m]) + (if m < |ps| then Encoded(ps[m])[..j] else [])
  }

  lemma EncodedCons(p: Packet, ps: seq<Packet>)
    requires Fits(p) && AllFit(ps)
    ensures AllFit([p] + ps) && EncodedAll([p] + ps) == Encoded(p) + EncodedAll(ps)
  {
    assert ([p] + ps)[1..] == ps;
  }

  lemma TakeOfConcat(a: Bytes, b: Bytes, k: nat)
    requires k <= |b|
    ensures (a + b)[..|a| + k] == a + b[..k]
  {
  }

  lemma CutPrepend(p: Packet, ps: seq<Packet>, k: nat, m: nat, j: nat)
    requires Fits(p) && AllFit(ps) && k <= |EncodedAll(ps)| && CutsAt(ps, k, m, j)
    ensures EncodedAll([p] + ps) == Encoded(p) + EncodedAll(ps)
    ensures CutsAt([p] + ps, |Encoded(p)| + k, m + 1, j)
  {
    EncodedCons(p, ps);
    EncodedCons(p, ps[..m]);
    var qs := [p] + ps;
    assert qs[..m + 1] == [p] + ps[..m];
    var tail := if m < |ps| then Encoded(ps[m])[..j] else [];
    TakeOfConcat(Encoded(p), EncodedAll(ps), k);
    Assoc(Encoded(p), EncodedAll(ps[..m]), tail);
  }

  lemma CutAtOnce(ps: seq<Packet>, k: nat)
    requires AllFit(ps) && k <= |EncodedAll(ps)| && (ps == [] || k < |Encoded(ps[0])|)
    ensures CutsAt(ps, k, 0, k)
  {
    assert ps[..0] == [];
  }

  /** WholeFrames and Overhang describe how the stream was cut. */
  lemma {:induction false} CutDecomposes(ps: seq<Packet>, k: nat)
    requires AllFit(ps) && k <= |EncodedAll(ps)|
    ensures CutsAt(ps, k, WholeFrames(ps, k), Overhang(ps, k))
  {
    if ps == [] || k < |Encoded(ps[0])| {
      CutAtOnce(ps, k);
    } else {
      var e, rest := |Encoded(ps[0])|, ps[1..];
      HeadTail(ps);
      CutDecomposes(rest, k - e);
      var m, j := WholeFrames(rest, k - e), Overhang(rest, k - e);
      CutPrepend(ps[0], rest, k - e, m, j);
      assert WholeFrames(ps, k) == m + 1 && Overhang(ps, k) == j;
    }
  }

  lemma ReadNext(p: Packet, tail: Bytes)
    requires Fits(p)
    ensures ReadAll(Encoded(p) + tail) == ([p] + ReadAll(tail).0, ReadAll(tail).1)
  {
    ReadPacketOfEncoded(p, tail);
  }

  lemma ReadPartial(p: Packet, k: nat)
    requires Fits(p) && k < |Encoded(p)|
    ensures ReadAll(Encoded(p)[..k]).0 == []
    ensures ReadAll(Encoded(p)[..k]).1 == EOF <==> k == 0
    ensures IsEOF(ReadAll(Encoded(p)[..k]).1) <==> k in {0, 2}
  {
    ReadPacketOfCut(p, k);
  }

  lemma Prepended(p: Packet, rest: Bytes, tail: Bytes)
    requires Fits(p)
    ensures ReadAll(Encoded(p) + rest + tail) == ([p] + ReadAll(rest + tail).0, ReadAll(rest + tail).1)
  {
    ReadNext(p, rest + tail);
    Assoc(Encoded(p), rest, tail);
  }

  /** Whatever follows them, whole frames read back as what was written. */
  lemma {:induction false} ReadAllAfter(ps: seq<Packet>, tail: Bytes)
    requires AllFit(ps)
    ensures ReadAll(EncodedAll(ps) + tail) == (ps + ReadAll(tail).0, ReadAll(tail).1)
  {
    if ps == [] {
      assert EncodedAll(ps) + tail == tail && ps + ReadAll(tail).0 == ReadAll(tail).0;
    } else {
      ReadAllAfter(ps[1..], tail);
      Prepended(ps[0], EncodedAll(ps[1..]), tail);
      Rejoin(ps, ReadAll(tail).0);
    }
  }

  /** Over any cut of an encoded stream the reader returns every complete packet,
      in order and unchanged, and its final error is bare io.EOF exactly when the
      cut falls on a frame boundary. */
  lemma ReadAllOfCut(ps: seq<Packet>, k: nat)
    requires AllFit(ps) && k <= |EncodedAll(ps)|
    ensures var (got, e) := ReadAll(EncodedAll(ps)[..k]);
      && got == ps[..WholeFrames(ps, k)]
      && (e == EOF <==> Overhang(ps, k) == 0)
      && (IsEOF(e) <==> Overhang(ps, k) in {0, 2})
  {
    CutDecomposes(ps, k);
    var m, j := WholeFrames(ps, k), Overhang(ps, k);
    if m < |ps| {
      ReadAllAfter(ps[..m], Encoded(ps[m])[..j]);
      ReadPartial(ps[m], j);
    } else {
      ReadAllAfter(ps[..m], []);
    }
  }

  /** An uncut stream reads back as what was written, ending in a clean EOF. */
  lemma RoundTrip(ps: seq<Packet>)
    requires AllFit(ps)
    ensures ReadAll(EncodedAll(ps)) == (ps, EOF)
  {
    ReadAllAfter(ps, []);
    assert EncodedAll(ps) + [] == EncodedAll(ps) && ps + [] == ps;
  }

  /** The documentation promises ErrUnexpectedEOF for any end of stream inside a
      frame. A stream that stops right after a header breaks that promise: the
      reader reports a wrapped io.EOF. */
  lemma EOFInsideFrame()
    ensures var s := Encoded(Packet(Data, [7]))[..2];
      && ReadAll(s).1 == InPayload(EOF) && IsEOF(ReadAll(s).1) && ReadAll(s).1 != EOF
  {
    ReadPacketOfCut(Packet(Data, [7]), 2);
  }

  lemma {:induction false} EncodedAllConcat(ps: seq<Packet>, qs: seq<Packet>)
    requires AllFit(ps) && AllFit(qs)
    ensures AllFit(ps + qs)
    ensures EncodedAll(ps + qs) == EncodedAll(ps) + EncodedAll(qs)
  {
    if ps == [] {
      assert ps + qs == qs;
    } else {
      EncodedAllConcat(ps[1..], qs);
      assert (ps + qs)[1..] == ps[1..] + qs;
      var a, b, c := Encoded(ps[0]), EncodedAll(ps[1..]), EncodedAll(qs);
      assert a + (b + c) == (a + b) + c;
    }
  }

  lemma EncodedAllSnoc(ps: seq<Packet>, p: Packet)
    requires AllFit(ps) && Fits(p)
    ensures AllFit(ps + [p])
    ensures EncodedAll(ps + [p]) == EncodedAll(ps) + Encoded(p)
  {
    EncodedAllConcat(ps, [p]);
    assert EncodedAll([p]) == Encoded(p);
  }

  // ------------------------------------------------------------- stream

  /** The receiving end of a byte stream. */
  class Source {
    var rest: Bytes

    constructor (s: Bytes)
      ensures rest == s
    {
      rest := s;
    }

    method Fill(n: nat) returns (got: Bytes, error: Option<ReadError>)
      modifies this
      ensures match ReadFull(old(rest), n)
        case Got(b, r) => error == None && got == b && rest == r
        case Failed(e) => error == Some(e) && rest == []
    {
      if |rest| >= n {
        got, error := rest[..n], None;
        rest := rest[n..];
      } else {
        got, error := [], Some(if |rest| == 0 then EOF else UnexpectedEOF);
        rest := [];
      }
    }

    method Frame() returns (payload: Bytes, error: Option<ReadError>)
      modifies this
      ensures match ReadFrame(old(rest))
        case Got(b, r) => error == None && payload == b && rest == r
        case Failed(e) => error == Some(e) && rest == []
    {
      payload := [];
      var header;
      header, error := Fill(2);
      if error.Some? {
        return;
      }
      var n := header[0] as int * 256 + header[1] as int;
      if n == 0 {
        return;
      }
      payload, error := Fill(n);
      if error.Some? {
        error := Some(InPayload(error.value));
      }
    }

    method Next() returns (p: Packet, error: Option<ReadError>)
      modifies this
      ensures match ReadPacket(old(rest))
        case Got(q, r) => error == None && p == q && rest == r
        case Failed(e) => error == Some(e)
    {
      p := Packet(Control, []);
      var payload;
      payload, error := Frame();
      if error.Some? {
        return;
      }
      if |payload| == 0 {
        return p, Some(EmptyFrame);
      }
      if payload[0] == TYPE_CONTROL {
        p := Packet(Control, payload[1..]);
      } else if payload[0] == TYPE_DATA {
        p := Packet(Data, payload[1..]);
      } else {
        error := Some(UnknownType(payload[0]));
      }
    }
  }

  /** A fail-stop connection: a failed Write may deliver part of its bytes, and
      nothing is delivered after it. `fate` holds the environment's decision for
      each coming Write: how many bytes survive if it fails. */
  class Conn {
    var wire: Bytes
    var broken: bool
    var fate: seq<Option<nat>>

    constructor (fate: seq<Option<nat>>)
      ensures wire == [] && !broken && this.fate == fate
    {
      wire, broken, this.fate := [], false, fate;
    }

    method Write(b: Bytes) returns (ok: bool)
      modifies this
      ensures ok ==> !old(broken) && !broken && wire == old(wire) + b
      ensures !ok ==> broken && exists k :: 0 <= k <= |b| && wire == old(wire) + b[..k]
      ensures old(broken) ==> !ok && wire == old(wire)
      ensures ok <==> !old(broken) && (old(fate) == [] || old(fate)[0].None?)
      ensures !old(broken) ==> fate == if old(fate) == [] then [] else old(fate)[1..]
    {
      if broken {
        assert wire == old(wire) + b[..0];
        return false;
      }
      if |fate| > 0 && fate[0].Some? {
        var k := if fate[0].value <= |b| then fate[0].value else |b|;
        wire := wire + b[..k];
        broken := true;
        fate := fate[1..];
        return false;
      }
      wire := wire + b;
      fate := if |fate| > 0 then fate[1..] else [];
      return true;
    }
  }

  datatype WriteError = FrameTooLarge | WriteFailed

  /** None of the next `n` writes is to fail. */
  predicate Holds(fate: seq<Option<nat>>, n: nat) {
    forall i :: 0 <= i < n && i < |fate| ==> fate[i].None?
  }

  /** Header and payload go out as two separate writes. A payload that does not
      fit is refused before anything is written. */
  method WriteFrame(conn: Conn, payload: Bytes) returns (error: Option<WriteError>)
    modifies conn
    ensures error == Some(FrameTooLarge) <==> |payload| > MAX_FRAME_SIZE
    ensures error == Some(FrameTooLarge) ==> conn.wire == old(conn.wire) && conn.broken == old(conn.broken)
    ensures error == None ==> !conn.broken && conn.wire == old(conn.wire) + Header(|payload|) + payload
    ensures error == Some(WriteFailed) ==> conn.broken && exists k ::
      0 <= k <= 2 + |payload| && conn.wire == old(conn.wire) + (Header(|payload|) + payload)[..k]
    ensures old(conn.broken) ==> error != None && conn.wire == old(conn.wire)
    ensures |payload| <= 65535 && !old(conn.broken) ==>
      (error == None <==> Holds(old(conn.fate), if payload == [] then 1 else 2))
  {
    if |payload| > MAX_FRAME_SIZE {
      return Some(FrameTooLarge);
    }
    var header := Header(|payload|);
    ghost var start := conn.wire;
    var ok := conn.Write(header);
    if !ok {
      ghost var k :| 0 <= k <= 2 && conn.wire == start + header[..k];
      assert conn.wire == start + (header + payload)[..k];
      return Some(WriteFailed);
    }
    if |payload| == 0 {
      return None;
    }
    ok := conn.Write(payload);
    if !ok {
      ghost var k :| 0 <= k <= |payload| && conn.wire == start + header + payload[..k];
      assert conn.wire == start + (header + payload)[..2 + k];
      return Some(WriteFailed);
    }
    return None;
  }

  method WritePacket(conn: Conn, p: Packet) returns (error: Option<WriteError>)
    modifies conn
    ensures error == Some(FrameTooLarge) <==> !Fits(p)
    ensures !Fits(p) ==> conn.wire == old(conn.wire) && conn.broken == old(conn.broken)
    ensures error == None ==> !conn.broken && Fits(p) && conn.wire == old(conn.wire) + Encoded(p)
    ensures error == Some(WriteFailed) ==> Fits(p) && conn.broken && exists k ::
      0 <= k <= |Encoded(p)| && conn.wire == old(conn.wire) + Encoded(p)[..k]
    ensures old(conn.broken) ==> error != None && conn.wire == old(conn.wire)
    ensures |p.body| <= 65534 && !old(conn.broken) ==> (error == None <==> Holds(old(conn.fate), 2))
  {
    ghost var start := conn.wire;
    error := WriteFrame(conn, Payload(p));
    if error == None {
      assert conn.wire == start + Encoded(p);
    } else if error == Some(WriteFailed) {
      ghost var n := |Payload(p)|;
      ghost var k :| 0 <= k <= 2 + n && conn.wire == start + (Header(n) + Payload(p))[..k];
      assert Encoded(p)[..k] == (Header(n) + Payload(p))[..k];
    }
  }
}
