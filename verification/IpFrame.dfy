/** internal/tunnel/server/ipframe.go: the header check every packet passes, against
    the IPv4 header layout of section 3.1 of RFC 791. */
module IpFrame {
  import opened Base

  type Bytes = seq<Octet>

  datatype HeaderError = ShortPacket | NotIPv4 | Malformed

  datatype Parsed = Ends(src: IPv4, dst: IPv4) | Rejected(error: HeaderError)

  function AddressAt(b: Bytes, at: nat): IPv4
    requires at + 4 <= |b|
  {
    ((b[at] as int * 256 + b[at + 1] as int) * 256 + b[at + 2] as int) * 256 + b[at + 3] as int
  }

  function HeaderLength(b: Bytes): nat
    requires |b| >= 20
  {
    b[0] as int % 16 * 4
  }

  function TotalLength(b: Bytes): nat
    requires |b| >= 20
  {
    b[2] as int * 256 + b[3] as int
  }

  function Parse(b: Bytes): Parsed {
    if |b| < 20 then Rejected(ShortPacket)
    else if b[0] as int / 16 != 4 then Rejected(NotIPv4)
    else
      var ihl, total := HeaderLength(b), TotalLength(b);
      if ihl < 20 || ihl > |b| || total < ihl || total > |b| then Rejected(Malformed)
      else Ends(AddressAt(b, 12), AddressAt(b, 16))
  }

  // ------------------------------------------------- the format it accepts

  /** A datagram by its fields; `middle` is the identification, flags, fragment
      offset, time to live, protocol and checksum, which the check does not read. */
  datatype Datagram = Datagram(service: Octet, middle: Bytes, src: IPv4, dst: IPv4, options: Bytes, payload: Bytes)

  predicate Valid(d: Datagram) {
    && |d.middle| == 8
    && |d.options| % 4 == 0 && |d.options| <= 40
    && 20 + |d.options| + |d.payload| <= 65535
  }

  function Word(n: nat): Bytes
    requires n < 65536
  {
    [(n / 256) as Octet, (n % 256) as Octet]
  }

  function Address(a: IPv4): Bytes {
    Word(a / 65536) + Word(a % 65536)
  }

  function Header(d: Datagram): Bytes
    requires Valid(d)
  {
    [(4 * 16 + 5 + |d.options| / 4) as Octet, d.service] + Word(20 + |d.options| + |d.payload|)
    + d.middle + Address(d.src) + Address(d.dst)
  }

  function Encoded(d: Datagram): Bytes
    requires Valid(d)
  {
    Header(d) + d.options + d.payload
  }

  lemma AddressRoundTrip(a: IPv4, before: Bytes, after: Bytes)
    ensures var b := before + Address(a) + after;
      |Address(a)| == 4 && AddressAt(b, |before|) == a
  {
    var b := before + Address(a) + after;
    var hi, lo := a / 65536, a % 65536;
    assert b[|before|] == (hi / 256) as Octet && b[|before| + 1] == (hi % 256) as Octet;
    assert b[|before| + 2] == (lo / 256) as Octet && b[|before| + 3] == (lo % 256) as Octet;
  }

  /** Every datagram is accepted with its own ends, also when the buffer it arrived
      in is longer. */
  lemma EncodedIsAccepted(d: Datagram, padding: Bytes)
    requires Valid(d)
    ensures Parse(Encoded(d) + padding) == Ends(d.src, d.dst)
    ensures TotalLength(Encoded(d) + padding) == |Encoded(d)|
  {
    var b := Encoded(d) + padding;
    var first := [(4 * 16 + 5 + |d.options| / 4) as Octet, d.service];
    var total := Word(20 + |d.options| + |d.payload|);
    var tail := d.options + d.payload + padding;
    var upToSrc := first + total + d.middle;
    assert b == upToSrc + Address(d.src) + (Address(d.dst) + tail);
    AddressRoundTrip(d.src, upToSrc, Address(d.dst) + tail);
    assert b == upToSrc + Address(d.src) + Address(d.dst) + tail;
    AddressRoundTrip(d.dst, upToSrc + Address(d.src), tail);
    assert b[0] == first[0] && b[2] == total[0] && b[3] == total[1];
  }

  /** The fields of an accepted buffer. */
  function Decoded(b: Bytes): Datagram
    requires Parse(b).Ends?
  {
    var n := HeaderLength(b);
    Datagram(b[1], b[4..12], AddressAt(b, 12), AddressAt(b, 16), b[20..n], b[n..TotalLength(b)])
  }

  lemma AddressIs(b: Bytes, at: nat)
    requires at + 4 <= |b|
    ensures Address(AddressAt(b, at)) == b[at..at + 4]
  {
    var hi := b[at] as int * 256 + b[at + 1] as int;
    var lo := b[at + 2] as int * 256 + b[at + 3] as int;
    assert AddressAt(b, at) == hi * 65536 + lo;
    DivUnique(AddressAt(b, at), 65536, hi, lo);
  }

  lemma HeaderIs(b: Bytes)
    requires Parse(b).Ends?
    ensures Valid(Decoded(b)) && Header(Decoded(b)) == b[..20]
  {
    var d := Decoded(b);
    var ihl, total := HeaderLength(b), TotalLength(b);
    AddressIs(b, 12);
    AddressIs(b, 16);
    DivUnique(total, 256, b[2] as int, b[3] as int);
    assert |d.options| == ihl - 20 && |d.payload| == total - ihl;
    assert Word(total) == b[2..4];
    assert Header(d)[0] == b[0];
    assert b[..20] == b[..2] + b[2..4] + b[4..12] + b[12..16] + b[16..20];
  }

  /** And nothing else is: an accepted buffer is a datagram followed by padding. */
  lemma AcceptedIsEncoded(b: Bytes)
    requires Parse(b).Ends?
    ensures Valid(Decoded(b))
    ensures b == Encoded(Decoded(b)) + b[TotalLength(b)..]
  {
    HeaderIs(b);
    var d := Decoded(b);
    var ihl, total := HeaderLength(b), TotalLength(b);
    assert Encoded(d) == b[..20] + b[20..ihl] + b[ihl..total];
  }
}
