/** IP prefixes, routing tables keyed by prefix, and the longest-prefix-match
    lookup of section 5.2.4.3 of RFC 1812. */
module Prefixes {
  import opened Base

  datatype Addr = V4(a: IPv4) | V6(n: nat)

  function Width(addr: Addr): nat {
    if addr.V4? then 32 else 128
  }

  datatype AnyPrefix = Prefix(addr: Addr, bits: nat)

  type Prefix = p: AnyPrefix | p.bits <= Width(p.addr) witness Prefix(V4(0), 0)

  /** `a` with its `k` low bits cleared. */
  function Cleared(a: nat, k: nat): (r: nat)
    ensures r <= a
    decreases k
  {
    if k == 0 then a else 2 * Cleared(a / 2, k - 1)
  }

  lemma ClearedStep(a: nat, m: nat)
    requires m > 0
    ensures 2 * (a / 2 - (a / 2) % m) == a - a % (2 * m)
  {
    var q, r := a / 2 / m, (a / 2) % m;
    assert a == 2 * (a / 2) + a % 2;
    DivUnique(a, 2 * m, q, 2 * r + a % 2);
  }

  lemma {:induction false} ClearedMeaning(a: nat, k: nat)
    ensures Cleared(a, k) == a - a % Pow2(k)
    decreases k
  {
    if k != 0 {
      ClearedMeaning(a / 2, k - 1);
      ClearedStep(a, Pow2(k - 1));
    }
  }

  lemma {:induction false} ClearedTwice(a: nat, k: nat)
    ensures Cleared(Cleared(a, k), k) == Cleared(a, k)
    decreases k
  {
    if k != 0 {
      var half := Cleared(a / 2, k - 1);
      ClearedTwice(a / 2, k - 1);
      assert (2 * half) / 2 == half;
    }
  }

  /** The one prefix of length `n` that can cover `a`. */
  function Key(a: IPv4, n: nat): Prefix
    requires n <= 32
  {
    Prefix(V4(Cleared(a, 32 - n)), n)
  }

  /** The prefix with its host bits cleared, as a kernel stores it. */
  function Masked(p: Prefix): Prefix {
    match p.addr
    case V4(a) => Key(a, p.bits)
    case V6(n) => Prefix(V6(Cleared(n, 128 - p.bits)), p.bits)
  }

  /** The host route of an address. */
  function Host(addr: Addr): Prefix {
    Prefix(addr, Width(addr))
  }

  lemma HostIsMasked(addr: Addr)
    ensures Masked(Host(addr)) == Host(addr)
  {
  }

  /** A prefix as long as its address names one host and carries no host bits. */
  lemma MaskedHost(p: Prefix, addr: Addr)
    requires Masked(p) == Host(addr)
    ensures p == Host(addr)
  {
  }

  predicate Covers(p: Prefix, a: IPv4) {
    p.addr.V4? && p.addr.a <= a < p.addr.a + Pow2(32 - p.bits)
  }

  lemma AlignedBlock(base: int, a: int, m: int)
    requires m > 0 && base % m == 0
    ensures base <= a < base + m <==> base == a - a % m
  {
    if base <= a < base + m {
      DivUnique(a, m, base / m, a - base);
    }
  }

  lemma CoversIsKey(p: Prefix, a: IPv4)
    requires p.addr.V4? && Masked(p) == p
    ensures Covers(p, a) <==> p == Key(a, p.bits)
  {
    var m := Pow2(32 - p.bits);
    ClearedMeaning(p.addr.a, 32 - p.bits);
    ClearedMeaning(a, 32 - p.bits);
    AlignedBlock(p.addr.a, a, m);
  }

  lemma MaskedTwice(p: Prefix)
    ensures Masked(Masked(p)) == Masked(p)
  {
    match p.addr
    case V4(a) => ClearedTwice(a, 32 - p.bits);
    case V6(n) => ClearedTwice(n, 128 - p.bits);
  }

  /** Next hop and the interface hint a route was added with. */
  datatype Hop = Hop(gw: Addr, iface: string)

  type Table = map<Prefix, Hop>

  ghost predicate Canonical(t: Table) {
    forall p :: p in t ==> Masked(p) == p
  }

  /** The longest length up to `n` at which `t` has a route for `a`; -1 if none. */
  function LongestUpTo(t: Table, a: IPv4, n: nat): (len: int)
    requires n <= 32
    ensures -1 <= len <= n
    ensures len >= 0 ==> Key(a, len) in t
    ensures forall k: nat :: len < k <= n ==> Key(a, k) !in t
  {
    if Key(a, n) in t then n
    else if n == 0 then -1
    else LongestUpTo(t, a, n - 1)
  }

  function Longest(t: Table, a: IPv4): int {
    LongestUpTo(t, a, 32)
  }

  function Lookup(t: Table, a: IPv4): Option<Hop> {
    var n := Longest(t, a);
    if n < 0 then None else Some(t[Key(a, n)])
  }

  ghost predicate BestMatch(t: Table, a: IPv4, p: Prefix) {
    p in t && Covers(p, a) && forall q :: q in t && Covers(q, a) ==> q.bits <= p.bits
  }

  /** Walking the lengths downwards finds exactly the longest matching prefix. */
  lemma LookupIsLongestMatch(t: Table, a: IPv4)
    requires Canonical(t)
    ensures match Lookup(t, a)
      case None => forall p :: p in t ==> !Covers(p, a)
      case Some(hop) => BestMatch(t, a, Key(a, Longest(t, a))) && hop == t[Key(a, Longest(t, a))]
    ensures forall p, q :: BestMatch(t, a, p) && BestMatch(t, a, q) ==> p == q
  {
    forall p | p in t && Covers(p, a) ensures p == Key(a, p.bits) {
      CoversIsKey(p, a);
    }
    var n := Longest(t, a);
    if n >= 0 {
      CoversIsKey(Key(a, n), a);
    }
  }

  /** Merging disjoint tables: the longer of the two matches wins. */
  lemma LookupOfMerge(h: Table, r: Table, a: IPv4)
    requires h.Keys !! r.Keys
    ensures Longest(h + r, a) == (if Longest(h, a) > Longest(r, a) then Longest(h, a) else Longest(r, a))
    ensures Lookup(h + r, a) == (if Longest(h, a) > Longest(r, a) then Lookup(h, a) else Lookup(r, a))
  {
    var n := Longest(h + r, a);
    if n >= 0 {
      assert Key(a, n) in h || Key(a, n) in r;
    }
    var i, j := Longest(h, a), Longest(r, a);
    if i >= 0 { assert Key(a, i) in h + r; }
    if j >= 0 { assert Key(a, j) in h + r; }
  }

  /** A host route beats every other route for its address. */
  lemma HostRouteWins(t: Table, a: IPv4)
    requires Host(V4(a)) in t
    ensures Lookup(t, a) == Some(t[Host(V4(a))])
  {
    assert Key(a, 32) == Host(V4(a));
  }
}
