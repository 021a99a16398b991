/** Vocabulary shared by every module: Option, octets, and a few facts about
    finite sets and sums that the conservation arguments need. */
module Base {

  datatype Option<+T> = None | Some(value: T)

  /** One octet of a byte stream. */
  newtype Octet = x: int | 0 <= x < 256

  const TWO_32: int := 0x1_0000_0000

  /** An IPv4 address as the 32-bit number it denotes. */
  type IPv4 = a: int | 0 <= a < 0x1_0000_0000

  function Pow2(n: nat): (r: nat)
    ensures r > 0
  {
    if n == 0 then 1 else 2 * Pow2(n - 1)
  }

  lemma Pow2Of32()
    ensures Pow2(32) == TWO_32
  {
    assert Pow2(8) == 256;
    assert Pow2(16) == 65536;
    assert Pow2(24) == 0x100_0000;
  }

  lemma MulMonotone(m: int, a: int, b: int)
    requires m >= 0 && a <= b
    ensures m * a <= m * b
  {
    assert m * (b - a) >= 0;
  }

  /** Quotient and remainder are unique. */
  lemma DivUnique(x: int, m: int, q: int, r: int)
    requires m > 0 && x == m * q + r && 0 <= r < m
    ensures x / m == q && x % m == r
  {
    var d, e := x / m, x % m;
    assert x == m * d + e;
    var gap := d - q;
    assert m * gap == r - e;
    if gap >= 1 {
      MulMonotone(m, 1, gap);
    } else if gap <= -1 {
      MulMonotone(m, gap, -1);
    }
  }

  lemma Assoc<T>(a: seq<T>, b: seq<T>, c: seq<T>)
    ensures (a + b) + c == a + (b + c)
  {
  }

  lemma HeadTail<T>(s: seq<T>)
    requires s != []
    ensures [s[0]] + s[1..] == s
  {
  }

  lemma Rejoin<T>(s: seq<T>, t: seq<T>)
    requires s != []
    ensures [s[0]] + (s[1..] + t) == s + t
  {
    assert s == [s[0]] + s[1..];
  }

  lemma SubsetSize<T>(a: set<T>, b: set<T>)
    requires a <= b
    ensures |a| <= |b|
  {
    assert b == a + (b - a);
  }

  /** The sum of the values of a map. */
  ghost function SumOf<K>(m: map<K, int>): int
    decreases |m|
  {
    if m.Keys == {} then 0 else
      var k :| k in m;
      m[k] + SumOf(m - {k})
  }

  lemma {:induction false} SumWithout<K>(m: map<K, int>, k: K)
    requires k in m
    ensures SumOf(m) == m[k] + SumOf(m - {k})
    decreases |m|
  {
    var c :| c in m && SumOf(m) == m[c] + SumOf(m - {c});
    if c != k {
      SumWithout(m - {c}, k);
      SumWithout(m - {k}, c);
      assert m - {c} - {k} == m - {k} - {c};
    }
  }

  lemma SumUpdated<K>(m: map<K, int>, k: K, v: int)
    ensures SumOf(m[k := v]) == SumOf(m) + v - (if k in m then m[k] else 0)
  {
    SumWithout(m[k := v], k);
    if k in m {
      SumWithout(m, k);
      assert m[k := v] - {k} == m - {k};
    } else {
      assert m[k := v] - {k} == m;
    }
  }

  /** With every value at least one, a map has no more entries than its sum. */
  lemma {:induction false} SumBoundsSize<K>(m: map<K, int>)
    requires forall k :: k in m ==> m[k] >= 1
    ensures |m| <= SumOf(m)
    decreases |m|
  {
    if m.Keys != {} {
      var k :| k in m;
      SumWithout(m, k);
      SumBoundsSize(m - {k});
      assert (m - {k}).Keys == m.Keys - {k};
    }
  }
}
