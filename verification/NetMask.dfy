/** prefixToNetMask of internal/route/route_windows.go and netmaskToPrefixLen of
    internal/tun/netmask.go: prefix lengths and dotted-quad masks. */
module NetMask {
  import opened Base
  import opened Prefixes

  // ------------------------------------------------------------- bit by bit

  function Or(x: nat, y: nat): nat
    decreases x + y
  {
    if x == 0 && y == 0 then 0
    else (if x % 2 == 1 || y % 2 == 1 then 1 else 0) + 2 * Or(x / 2, y / 2)
  }

  function And(x: nat, y: nat): (r: nat)
    ensures r <= x
  {
    if x == 0 || y == 0 then 0
    else (if x % 2 == 1 && y % 2 == 1 then 1 else 0) + 2 * And(x / 2, y / 2)
  }

  lemma {:induction false} OrZero(x: nat)
    ensures Or(x, 0) == x
  {
    if x != 0 {
      OrZero(x / 2);
    }
  }

  /** `x` has bits beyond those of `y` only from position `k` up. */
  lemma {:induction false} OrDisjoint(q: nat, k: nat, y: nat)
    requires y < Pow2(k)
    ensures Or(q * Pow2(k), y) == q * Pow2(k) + y
    decreases k
  {
    if k == 0 {
      assert q * Pow2(k) == q;
      OrZero(q);
    } else {
      assert q * Pow2(k) == 2 * (q * Pow2(k - 1));
      assert y / 2 < Pow2(k - 1);
      OrDisjoint(q, k - 1, y / 2);
      var x := q * Pow2(k);
      assert x % 2 == 0 && x / 2 == q * Pow2(k - 1);
      assert y == 2 * (y / 2) + y % 2;
    }
  }

  lemma {:induction false} PowMonotone(a: nat, b: nat)
    requires a <= b
    ensures Pow2(a) <= Pow2(b)
    decreases b
  {
    if a < b {
      PowMonotone(a, b - 1);
    }
  }

  /** The number below 2^w with the bits from position `k` up set. */
  function HighOnes(w: nat, k: nat): (r: nat)
    requires k <= w
    ensures r < Pow2(w)
  {
    PowMonotone(k, w);
    Pow2(w) - Pow2(k)
  }

  lemma PowSteps(c: nat)
    requires c <= 8
    ensures 1 <= Pow2(c) <= 256 && 1 <= Pow2(8 - c) <= 256 && Pow2(c) * Pow2(8 - c) == 256
  {
    assert Pow2(1) == 2 && Pow2(2) == 4 && Pow2(3) == 8 && Pow2(4) == 16;
    assert Pow2(5) == 32 && Pow2(6) == 64 && Pow2(7) == 128 && Pow2(8) == 256;
  }

  /** The octet whose `c` top bits are set. */
  function Top(c: nat): (r: nat)
    requires c <= 8
    ensures r < 256
  {
    PowSteps(0);
    HighOnes(8, 8 - c)
  }

  lemma OrTop(c: nat)
    requires c < 8
    ensures Or(Top(c), Pow2(7 - c)) == Top(c + 1)
  {
    PowSteps(c);
    var q := Pow2(c) - 1;
    assert Top(c) == q * Pow2(8 - c);
    assert Pow2(7 - c) < Pow2(8 - c);
    OrDisjoint(q, 8 - c, Pow2(7 - c));
  }

  lemma {:induction false} AndOnes(a: nat, w: nat)
    requires a < Pow2(w)
    ensures And(a, Pow2(w) - 1) == a
    decreases w
  {
    if a != 0 {
      AndOnes(a / 2, w - 1);
      assert (Pow2(w) - 1) / 2 == Pow2(w - 1) - 1;
    }
  }

  lemma {:induction false} ClearedSmall(a: nat, k: nat)
    requires a < Pow2(k)
    ensures Cleared(a, k) == 0
    decreases k
  {
    if k != 0 {
      ClearedSmall(a / 2, k - 1);
    }
  }

  /** Masking with set high bits clears the low ones. */
  lemma {:induction false} AndClears(a: nat, w: nat, k: nat)
    requires k <= w && a < Pow2(w)
    ensures And(a, HighOnes(w, k)) == Cleared(a, k)
    decreases w
  {
    if k == 0 {
      AndOnes(a, w);
    } else {
      var y := HighOnes(w, k);
      assert y == 2 * HighOnes(w - 1, k - 1);
      AndClears(a / 2, w - 1, k - 1);
      if a == 0 || y == 0 {
        ClearedSmall(a, k);
      }
    }
  }

  // ---------------------------------------------------------- prefixToNetMask

  function Number(b: seq<Octet>): nat
    requires |b| == 4
  {
    ((b[0] as int * 256 + b[1] as int) * 256 + b[2] as int) * 256 + b[3] as int
  }

  function MaskOf(n: nat): (m: nat)
    requires n <= 32
    ensures m == TWO_32 - Pow2(32 - n)
  {
    Pow2Of32();
    HighOnes(32, 32 - n)
  }

  /** How many of the first `n` bits fall into octet `j`. */
  function BitsIn(n: nat, j: nat): (c: nat)
    ensures c <= 8
  {
    if n <= 8 * j then 0 else if n >= 8 * j + 8 then 8 else n - 8 * j
  }

  lemma BitsStep(i: nat)
    requires i < 32
    ensures BitsIn(i, i / 8) == i % 8 && BitsIn(i + 1, i / 8) == i % 8 + 1
    ensures forall j :: 0 <= j < 4 && j != i / 8 ==> BitsIn(i + 1, j) == BitsIn(i, j)
  {
  }

  /** Sets the next bit of an octet whose `c` top bits are set. */
  method SetBit(b: Octet, c: nat) returns (r: Octet)
    requires c < 8 && b as int == Top(c)
    ensures r as int == Top(c + 1)
  {
    OrTop(c);
    r := Or(b as int, Pow2(7 - c)) as Octet;
  }

  /** The mask, octet by octet. */
  method MaskOctets(bits: nat) returns (mask: seq<Octet>)
    requires bits <= 32
    ensures |mask| == 4 && forall j :: 0 <= j < 4 ==> mask[j] as int == Top(BitsIn(bits, j))
  {
    var m := new Octet[4](_ => 0);
    PowSteps(0);
    for i := 0 to bits
      invariant forall j :: 0 <= j < 4 ==> m[j] as int == Top(BitsIn(i, j))
    {
      BitsStep(i);
      var b := SetBit(m[i / 8], i % 8);
      m[i / 8] := b;
    }
    return m[..];
  }

  /** The octets of `addr` under the mask of `n` bits. */
  method MaskedOctets(addr: seq<Octet>, mask: seq<Octet>, n: nat) returns (net: seq<Octet>)
    requires |addr| == 4 && |mask| == 4 && forall j :: 0 <= j < 4 ==> mask[j] as int == Top(BitsIn(n, j))
    ensures |net| == 4 && forall j :: 0 <= j < 4 ==> net[j] as int == Cleared(addr[j] as int, 8 - BitsIn(n, j))
  {
    PowSteps(8);
    forall j | 0 <= j < 4
      ensures And(addr[j] as int, mask[j] as int) == Cleared(addr[j] as int, 8 - BitsIn(n, j))
    {
      AndClears(addr[j] as int, 8, 8 - BitsIn(n, j));
    }
    net := seq(4, j requires 0 <= j < 4 => And(addr[j] as int, mask[j] as int) as Octet);
  }

  lemma TopOf(mask: seq<Octet>, n: nat, j: nat)
    requires j < 4 && |mask| == 4 && mask[j] as int == Top(BitsIn(n, j))
    ensures mask[j] as int == 256 - Pow2(8 - BitsIn(n, j))
    ensures n <= 8 * j ==> mask[j] == 0
    ensures n >= 8 * j + 8 ==> mask[j] == 255
  {
    PowSteps(0);
  }

  /** Octets that agree with the mask of `n` bits make up 2^32 - 2^(32-n). */
  lemma MaskValue(a: int, b: int, c: int, d: int, n: nat, rest: nat)
    requires n <= 8 ==> 0x100_0000 * (256 - a) == rest && b == 0 && c == 0 && d == 0
    requires 8 <= n <= 16 ==> a == 255 && 0x1_0000 * (256 - b) == rest && c == 0 && d == 0
    requires 16 <= n <= 24 ==> a == 255 && b == 255 && 0x100 * (256 - c) == rest && d == 0
    requires 24 <= n ==> a == 255 && b == 255 && c == 255 && 256 - d == rest
    ensures ((a * 256 + b) * 256 + c) * 256 + d == TWO_32 - rest
  {
  }

  lemma PowPlus8(a: nat)
    ensures Pow2(a + 8) == 256 * Pow2(a)
  {
    assert Pow2(a + 2) == 4 * Pow2(a);
    assert Pow2(a + 4) == 16 * Pow2(a);
    assert Pow2(a + 6) == 64 * Pow2(a);
  }

  /** 2^(32-n), by the octet in which the mask ends. */
  lemma PowOfRest(n: nat)
    requires n <= 32
    ensures n <= 8 ==> Pow2(32 - n) == 0x100_0000 * Pow2(8 - n)
    ensures 8 <= n <= 16 ==> Pow2(32 - n) == 0x1_0000 * Pow2(16 - n)
    ensures 16 <= n <= 24 ==> Pow2(32 - n) == 0x100 * Pow2(24 - n)
  {
    if n <= 8 {
      PowPlus8(8 - n);
    }
    if n <= 16 {
      PowPlus8(16 - n);
    }
    if n <= 24 {
      PowPlus8(24 - n);
    }
  }

  lemma MaskNumber(mask: seq<Octet>, n: nat)
    requires n <= 32 && |mask| == 4
    requires forall j :: 0 <= j < 4 ==> mask[j] as int == Top(BitsIn(n, j))
    ensures Number(mask) == MaskOf(n)
  {
    forall j | 0 <= j < 4
      ensures mask[j] as int == 256 - Pow2(8 - BitsIn(n, j))
      ensures n <= 8 * j ==> mask[j] == 0
      ensures n >= 8 * j + 8 ==> mask[j] == 255
    {
      TopOf(mask, n, j);
    }
    PowOfRest(n);
    MaskValue(mask[0] as int, mask[1] as int, mask[2] as int, mask[3] as int, n, Pow2(32 - n));
  }

  function Shifted(a: nat, w: nat): nat {
    if w == 0 then a else 2 * Shifted(a, w - 1)
  }

  /** Clearing bits of a number written as a high and a low part. */
  lemma {:induction false} ClearedParts(hi: nat, lo: nat, w: nat, k: nat)
    requires lo < Pow2(w)
    ensures k <= w ==> Cleared(Shifted(hi, w) + lo, k) == Shifted(hi, w) + Cleared(lo, k)
    ensures k >= w ==> Cleared(Shifted(hi, w) + lo, k) == Shifted(Cleared(hi, k - w), w)
    decreases w
  {
    if w > 0 && k > 0 {
      assert (Shifted(hi, w) + lo) / 2 == Shifted(hi, w - 1) + lo / 2;
      ClearedParts(hi, lo / 2, w - 1, k - 1);
    }
  }

  lemma ShiftedIs(a: nat)
    ensures Shifted(a, 8) == a * 256
  {
    assert Shifted(a, 1) == 2 * a;
    assert Shifted(a, 3) == 8 * a;
    assert Shifted(a, 5) == 32 * a;
    assert Shifted(a, 7) == 128 * a;
  }

  lemma ClearedOctet(hi: nat, lo: Octet, k: nat)
    ensures k <= 8 ==> Cleared(hi * 256 + lo as int, k) == hi * 256 + Cleared(lo as int, k)
    ensures k >= 8 ==> Cleared(hi * 256 + lo as int, k) == Cleared(hi, k - 8) * 256
  {
    PowSteps(8);
    ShiftedIs(hi);
    if k >= 8 {
      ShiftedIs(Cleared(hi, k - 8));
    }
    ClearedParts(hi, lo as int, 8, k);
  }

  lemma ClearedTriple(a: Octet, b: Octet, c: Octet, n: nat)
    requires n <= 24
    ensures Cleared((a as int * 256 + b as int) * 256 + c as int, 24 - n) ==
      if n <= 8 then Cleared(a as int, 8 - n) * 0x1_0000
      else if n <= 16 then (a as int * 256 + Cleared(b as int, 16 - n)) * 256
      else (a as int * 256 + b as int) * 256 + Cleared(c as int, 24 - n)
  {
    ClearedOctet(a as int * 256 + b as int, c, 24 - n);
    if n <= 16 {
      ClearedOctet(a as int, b, 16 - n);
    }
  }

  lemma ClearedQuad(a: Octet, b: Octet, c: Octet, d: Octet, n: nat)
    requires n <= 32
    ensures Cleared(((a as int * 256 + b as int) * 256 + c as int) * 256 + d as int, 32 - n) ==
      if n <= 8 then Cleared(a as int, 8 - n) * 0x100_0000
      else if n <= 16 then (a as int * 256 + Cleared(b as int, 16 - n)) * 0x1_0000
      else if n <= 24 then ((a as int * 256 + b as int) * 256 + Cleared(c as int, 24 - n)) * 256
      else ((a as int * 256 + b as int) * 256 + c as int) * 256 + Cleared(d as int, 32 - n)
  {
    ClearedOctet((a as int * 256 + b as int) * 256 + c as int, d, 32 - n);
    if n <= 24 {
      ClearedTriple(a, b, c, n);
    }
  }

  lemma ClearedWhole(a: Octet, b: Octet, n: nat, j: nat)
    requires b as int == Cleared(a as int, 8 - BitsIn(n, j))
    ensures n >= 8 * j + 8 ==> b == a
    ensures n <= 8 * j ==> b == 0
  {
    PowSteps(8);
    ClearedSmall(a as int, 8);
  }

  lemma ClearedNumber(addr: seq<Octet>, net: seq<Octet>, n: nat)
    requires n <= 32 && |addr| == 4 && |net| == 4
    requires forall j :: 0 <= j < 4 ==> net[j] as int == Cleared(addr[j] as int, 8 - BitsIn(n, j))
    ensures Number(net) == Cleared(Number(addr), 32 - n)
  {
    forall j | 0 <= j < 4
      ensures n >= 8 * j + 8 ==> net[j] == addr[j]
      ensures n <= 8 * j ==> net[j] == 0
    {
      ClearedWhole(addr[j], net[j], n, j);
    }
    ClearedQuad(addr[0], addr[1], addr[2], addr[3], n);
  }

  /** None for an address that is not IPv4; otherwise the network address, as the
      kernel stores it, and the mask 2^32 - 2^(32-n). */
  method PrefixToNetMask(p: Prefix, addr: seq<Octet>) returns (r: Option<(seq<Octet>, seq<Octet>)>)
    requires |addr| == 4 && (p.addr.V4? ==> Number(addr) == p.addr.a)
    ensures r.None? <==> !p.addr.V4?
    ensures r.Some? ==> |r.value.0| == 4 && |r.value.1| == 4
    ensures r.Some? ==> V4(Number(r.value.0)) == Masked(p).addr
    ensures r.Some? ==> Number(r.value.1) == TWO_32 - Pow2(32 - p.bits)
  {
    if !p.addr.V4? {
      return None;
    }
    var mask := MaskOctets(p.bits);
    var net := MaskedOctets(addr, mask, p.bits);
    MaskNumber(mask, p.bits);
    ClearedNumber(addr, net, p.bits);
    return Some((net, mask));
  }

  // ------------------------------------------------------- netmaskToPrefixLen

  function LeadingZeros(x: nat, w: nat): (n: nat)
    ensures n <= w
  {
    if w == 0 || x >= Pow2(w - 1) then 0 else 1 + LeadingZeros(x, w - 1)
  }

  function TrailingZeros(x: nat, w: nat): (n: nat)
    ensures n <= w
  {
    if w == 0 || x % 2 == 1 then 0 else 1 + TrailingZeros(x / 2, w - 1)
  }

  lemma {:induction false} LeadingMeaning(x: nat, w: nat)
    requires x < Pow2(w)
    ensures x < Pow2(w - LeadingZeros(x, w))
    ensures LeadingZeros(x, w) < w ==> x >= Pow2(w - LeadingZeros(x, w) - 1)
  {
    if w != 0 && x < Pow2(w - 1) {
      LeadingMeaning(x, w - 1);
    }
  }

  lemma {:induction false} LeadingOfOnes(k: nat, w: nat)
    requires k <= w
    ensures LeadingZeros(Pow2(k) - 1, w) == w - k
    decreases w
  {
    if w != 0 && k < w {
      PowMonotone(k, w - 1);
      LeadingOfOnes(k, w - 1);
    }
  }

  lemma HighOnesHalf(w: nat, k: nat)
    requires 0 < k <= w
    ensures HighOnes(w, k) % 2 == 0 && HighOnes(w, k) / 2 == HighOnes(w - 1, k - 1)
  {
    assert HighOnes(w, k) == 2 * HighOnes(w - 1, k - 1);
  }

  lemma Odd(x: nat, y: nat)
    requires x == 2 * y + 1
    ensures x % 2 == 1
  {
  }

  lemma HighOnesOdd(w: nat)
    requires 0 < w
    ensures HighOnes(w, 0) % 2 == 1
  {
    Odd(HighOnes(w, 0), Pow2(w - 1) - 1);
  }

  lemma {:induction false} TrailingOfHighOnes(w: nat, k: nat)
    requires k <= w
    ensures TrailingZeros(HighOnes(w, k), w) == k
    decreases w
  {
    if w != 0 {
      if k != 0 {
        HighOnesHalf(w, k);
        TrailingOfHighOnes(w - 1, k - 1);
      } else {
        HighOnesOdd(w);
      }
    }
  }

  /** A number below 2^w with `k` trailing zeros that is within 2^k of 2^w. */
  lemma {:induction false} TopMultiple(m: nat, w: nat, k: nat)
    requires k <= w && m < Pow2(w) && TrailingZeros(m, w) >= k && Pow2(w) - m <= Pow2(k)
    ensures m == HighOnes(w, k)
    decreases w
  {
    if k != 0 {
      TopMultiple(m / 2, w - 1, k - 1);
    }
  }

  lemma ZerosOfMask(n: nat)
    requires n <= 32
    ensures LeadingZeros(TWO_32 - 1 - MaskOf(n), 32) == n && TrailingZeros(MaskOf(n), 32) == 32 - n
  {
    Pow2Of32();
    LeadingOfOnes(32 - n, 32);
    TrailingOfHighOnes(32, 32 - n);
  }

  /** The contiguity test accepts exactly the masks of some prefix length, and the
      leading ones give the length. */
  lemma ContiguousIff(m: nat)
    requires m < TWO_32
    ensures var ones := LeadingZeros(TWO_32 - 1 - m, 32);
      ones + TrailingZeros(m, 32) == 32 <==> m == MaskOf(ones)
    ensures forall n :: 0 <= n <= 32 && m == MaskOf(n) ==> n == LeadingZeros(TWO_32 - 1 - m, 32)
  {
    Pow2Of32();
    var ones := LeadingZeros(TWO_32 - 1 - m, 32);
    LeadingMeaning(TWO_32 - 1 - m, 32);
    if ones + TrailingZeros(m, 32) == 32 {
      TopMultiple(m, 32, 32 - ones);
    }
    forall n | 0 <= n <= 32 && m == MaskOf(n)
      ensures n == ones && TrailingZeros(m, 32) == 32 - n
    {
      ZerosOfMask(n);
    }
  }

  datatype MaskText = Unparsable | NotFour | Quad(m: IPv4)

  datatype MaskError = Invalid | NotIPv4 | NotCanonical | NotContiguous

  datatype Length = Ok(n: nat) | Err(error: MaskError)

  /** net.IPMask.Size: None for a mask that is not canonical. */
  function Size(m: IPv4): Option<nat> {
    var ones := LeadingZeros(TWO_32 - 1 - m, 32);
    if m == MaskOf(ones) then Some(ones) else None
  }

  function NetmaskToPrefixLen(t: MaskText): (r: Length)
    ensures r.Ok? ==> r.n <= 32
  {
    match t
    case Unparsable => Err(Invalid)
    case NotFour => Err(NotIPv4)
    case Quad(m) =>
      var ones := Size(m);
      if ones.None? then Err(NotCanonical)
      else if LeadingZeros(TWO_32 - 1 - m, 32) + TrailingZeros(m, 32) != 32 then Err(NotContiguous)
      else Ok(ones.value)
  }

  /** A mask maps to a length exactly if it is the mask of that length, and the
      second, defensive test never fires. */
  lemma MaskRoundTrip(m: IPv4, n: nat)
    requires n <= 32
    ensures NetmaskToPrefixLen(Quad(m)) == Ok(n) <==> m == MaskOf(n)
    ensures NetmaskToPrefixLen(Quad(m)) != Err(NotContiguous)
  {
    ContiguousIff(m);
  }
}
