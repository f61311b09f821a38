/** The address allocator of core/usecase/issuecredential.go over an IPv4 prefix. */
module Seats {
  import opened Common
  import opened Members

  /** The largest multiple of `size` that does not exceed `x`. */
  function RoundedDown(x: nat, size: nat): nat
    requires size > 0
  {
    x / size * size
  }

  datatype Prefix = Prefix(addr: nat, bits: nat) {
    predicate Valid() { bits <= 32 && addr < 0x1_0000_0000 }

    function Size(): nat
      requires Valid()
    {
      Pow2(32 - bits)
    }

    function Network(): nat
      requires Valid()
    {
      RoundedDown(addr, Size())
    }

    predicate Masked()
      requires Valid()
    {
      Network() == addr
    }

    predicate Contains(a: Addr)
      requires Valid()
    {
      Network() <= a <= Last()
    }

    /** The broadcast address. */
    function Last(): nat
      requires Valid()
    {
      Network() + Size() - 1
    }
  }

  type Subnet = p: Prefix | p.Valid() witness Prefix(0, 32)

  function HostAddress(p: Prefix): Addr { p.addr + 1 }

  /** Network, host and broadcast addresses, and every seat somebody holds. */
  function Taken(t: Table, p: Prefix, now: Time): set<Addr>
    requires p.Valid()
  {
    {p.addr, HostAddress(p), p.Last()} + set ip | ip in t && t[ip].HoldsSeat(now)
  }

  ghost predicate IsSmallestFree(p: Prefix, taken: set<Addr>, a: Addr)
    requires p.Valid()
  {
    p.addr <= a && p.Contains(a) && a !in taken && forall b | p.addr <= b < a :: b in taken
  }

  predicate Between(lo: nat, a: Addr, hi: nat) { lo <= a < hi }

  function Interval(lo: nat, hi: nat): set<Addr> {
    set a: Addr | lo <= a < hi && Between(lo, a, hi)
  }

  function Seats(p: Prefix): set<Addr>
    requires p.Valid()
  {
    AddrInside(p);
    Interval(p.addr, p.Last() + 1)
  }

  function FreeSet(p: Prefix, taken: set<Addr>): set<Addr>
    requires p.Valid()
  {
    Seats(p) - taken
  }

  lemma AddrInside(p: Prefix)
    requires p.Valid()
    ensures p.Contains(p.addr)
  {
    assert p.addr == p.Network() + p.addr % p.Size();
  }

  /** Exactly one answer fits: the smallest free address, or none when every address is taken. */
  method NextFreeAddress(p: Option<Prefix>, taken: set<Addr>) returns (r: Option<Addr>)
    requires p.Some? ==> p.value.Valid()
    ensures r.Some? ==> p.Some? && IsSmallestFree(p.value, taken, r.value)
    ensures r.None? && p.Some? ==> FreeSet(p.value, taken) == {}
  {
    if p.None? {
      return None;
    }
    var subnet := p.value;
    AddrInside(subnet);
    var a := subnet.addr;
    while subnet.Contains(a)
      invariant subnet.addr <= a <= subnet.Last() + 1
      invariant forall b | subnet.addr <= b < a :: b in taken
      decreases subnet.Last() + 1 - a
    {
      if a !in taken {
        return Some(a);
      }
      a := a + 1;
    }
    return None;
  }

  method FreeAddressCount(p: Prefix, taken: set<Addr>) returns (n: nat)
    requires p.Valid()
    ensures n == |FreeSet(p, taken)|
  {
    AddrInside(p);
    n := 0;
    var a := p.addr;
    while p.Contains(a)
      invariant p.addr <= a <= p.Last() + 1
      invariant n == FreeBelow(p.addr, a, taken)
      decreases p.Last() + 1 - a
    {
      if a !in taken {
        n := n + 1;
      }
      a := a + 1;
    }
    FreeBelowIsCardinality(p.addr, a, taken);
  }

  function FreeBelow(lo: nat, hi: nat, taken: set<Addr>): nat
    requires lo <= hi
  {
    if lo == hi then 0 else FreeBelow(lo, hi - 1, taken) + if hi - 1 in taken then 0 else 1
  }

  lemma {:induction false} FreeBelowIsCardinality(lo: nat, hi: nat, taken: set<Addr>)
    requires lo <= hi
    ensures FreeBelow(lo, hi, taken) == |Interval(lo, hi) - taken|
  {
    if lo < hi {
      FreeBelowIsCardinality(lo, hi - 1, taken);
      assert Between(lo, hi - 1, hi);
      if hi - 1 in taken {
        assert Interval(lo, hi) - taken == Interval(lo, hi - 1) - taken;
      } else {
        assert Interval(lo, hi) - taken == Interval(lo, hi - 1) - taken + {hi - 1};
      }
    }
  }

  /** Free and occupied addresses of a masked subnet add up to its size. */
  lemma FreePlusOccupiedIsSize(p: Prefix, taken: set<Addr>)
    requires p.Valid() && p.Masked()
    ensures |FreeSet(p, taken)| + |set a | a in taken && p.Contains(a)| == p.Size()
  {
    AddrInside(p);
    IntervalSize(p.addr, p.Last() + 1);
    assert Seats(p) == FreeSet(p, taken) + set a | a in taken && p.Contains(a);
  }

  lemma {:induction false} IntervalSize(lo: nat, hi: nat)
    requires lo <= hi
    ensures |Interval(lo, hi)| == hi - lo
  {
    if lo < hi {
      IntervalSize(lo, hi - 1);
      assert Between(lo, hi - 1, hi);
      assert Interval(lo, hi) == Interval(lo, hi - 1) + {hi - 1};
    }
  }

  /** An address the allocator may hand out is a guest's: inside the subnet and
      neither its network, its host nor its broadcast address, and nobody sits there. */
  lemma FreeIsGuestSeat(t: Table, p: Prefix, now: Time, a: Addr)
    requires p.Valid() && IsSmallestFree(p, Taken(t, p, now), a)
    ensures a != p.addr && a != p.addr + 1 && a != p.Last() && p.Contains(a)
    ensures a in t ==> !t[a].HoldsSeat(now)
  {
  }

  /** Holding one more seat, at an address that was free, costs exactly one. */
  lemma TakingOneSeat(p: Prefix, taken: set<Addr>, a: Addr)
    requires p.Valid() && a in FreeSet(p, taken)
    ensures |FreeSet(p, taken + {a})| == |FreeSet(p, taken)| - 1
  {
    assert FreeSet(p, taken + {a}) == FreeSet(p, taken) - {a};
  }

}

/** The broadcast of a prefix, computed on the four bytes of its address. */
module Broadcast {
  import opened Common
  import opened Seats

  function BitOf(x: nat, k: nat): nat { x / Pow2(k) % 2 }

  /** `x | 1 << k`. */
  function WithBit(x: nat, k: nat): nat {
    if BitOf(x, k) == 1 then x else x + Pow2(k)
  }

  ghost predicate FourBytes(b: seq<nat>) {
    |b| == 4 && forall i | 0 <= i < 4 :: b[i] < 0x100
  }

  function Value(b: seq<nat>): nat
    requires |b| == 4
  {
    b[0] * 0x1000000 + b[1] * 0x10000 + b[2] * 0x100 + b[3]
  }

  /** `v` with its low `i` bits set. */
  function Filled(v: nat, i: nat): nat { v / Pow2(i) * Pow2(i) + (Pow2(i) - 1) }

  lemma MulMono(d: nat, a: nat, b: nat)
    requires a <= b
    ensures d * a <= d * b
  {
    assert d * b == d * a + d * (b - a);
  }

  lemma QuotientIsUnique(x: nat, d: nat, q: nat, r: nat)
    requires d > 0 && r < d && x == d * q + r
    ensures x / d == q && x % d == r
  {
    var p := x / d;
    assert x == d * p + x % d;
    assert d * (q + 1) == d * q + d && d * (p + 1) == d * p + d;
    if p > q {
      MulMono(d, q + 1, p);
    } else if p < q {
      MulMono(d, p + 1, q);
    }
  }

  lemma DivDiv(x: nat, m: nat, k: nat)
    requires m > 0 && k > 0
    ensures m * k > 0 && x / (m * k) == x / m / k
  {
    var q, r := x / m, x % m;
    var s, t := q / k, q % k;
    assert q == k * s + t;
    calc {
      x;
      m * q + r;
      m * (k * s + t) + r;
      m * (k * s) + m * t + r;
      (m * k) * s + (m * t + r);
    }
    MulMono(m, t + 1, k);
    assert m * (t + 1) == m * t + m;
    QuotientIsUnique(x, m * k, s, m * t + r);
  }

  lemma AddMultiple(x: nat, p: nat, n: nat)
    requires p > 0
    ensures (p * n + x) / p == n + x / p
  {
    assert p * (n + x / p) == p * n + p * (x / p);
    QuotientIsUnique(p * n + x, p, n + x / p, x % p);
  }

  lemma {:induction false} Pow2Add(m: nat, k: nat)
    ensures Pow2(m + k) == Pow2(m) * Pow2(k)
  {
    if m > 0 {
      Pow2Add(m - 1, k);
      assert Pow2(m + k) == 2 * (Pow2(m - 1) * Pow2(k));
    }
  }

  lemma BitInByte(high: nat, x: nat, k: nat)
    requires k < 8
    ensures (high * 0x100 + x) / Pow2(k) % 2 == BitOf(x, k)
  {
    Pow2Add(k, 7 - k);
    assert Pow2(7) == 0x80;
    EvenAbove(high, x, Pow2(k), Pow2(7 - k));
  }

  lemma EvenAbove(high: nat, x: nat, p: nat, e: nat)
    requires p > 0 && p * e == 0x80
    ensures (high * 0x100 + x) / p % 2 == x / p % 2
  {
    var n := e * high;
    EvenMultiple(high, p, e);
    AddMultiple(x, p, 2 * n);
  }

  lemma EvenMultiple(high: nat, p: nat, e: nat)
    requires p * e == 0x80
    ensures p * (2 * (e * high)) == high * 0x100
  {
    assert p * (2 * (e * high)) == 2 * ((p * e) * high);
  }

  lemma ClearBitFits(x: nat, k: nat)
    requires x < 0x100 && k < 8
    ensures WithBit(x, k) < 0x100
  {
    var p, e := Pow2(k), Pow2(7 - k);
    Pow2Add(k, 7 - k);
    assert p * e == Pow2(7) == 0x80;
    assert p * (2 * e) == 0x100;
    var y := x / p;
    assert x == p * y + x % p;
    assert p * (y + 2) == p * y + 2 * p;
    if y >= 2 * e {
      MulMono(p, 2 * e, y);
    } else if y % 2 == 0 {
      MulMono(p, y + 2, 2 * e);
    }
  }

  lemma HighPart(b: seq<nat>, j: nat) returns (high: nat)
    requires FourBytes(b) && j < 4
    ensures Value(b) / Pow2(8 * j) == high * 0x100 + b[3 - j]
  {
    assert Pow2(8) == 0x100;
    Pow2Add(8, 8);
    Pow2Add(16, 8);
    if j == 0 {
      high := b[0] * 0x10000 + b[1] * 0x100 + b[2];
    } else if j == 1 {
      high := b[0] * 0x100 + b[1];
    } else if j == 2 {
      high := b[0];
    } else {
      high := 0;
    }
  }

  /** Setting bit `i` in its byte sets bit `i` of the whole address. */
  lemma ByteCarriesBit(b: seq<nat>, i: nat)
    requires FourBytes(b) && i < 32
    ensures BitOf(Value(b), i) == BitOf(b[3 - i / 8], i % 8)
    ensures WithBit(b[3 - i / 8], i % 8) < 0x100
    ensures Value(b[3 - i / 8 := WithBit(b[3 - i / 8], i % 8)]) == WithBit(Value(b), i)
  {
    var j, k := i / 8, i % 8;
    var high := HighPart(b, j);
    BitInByte(high, b[3 - j], k);
    ClearBitFits(b[3 - j], k);
    Pow2Add(8 * j, k);
    DivDiv(Value(b), Pow2(8 * j), Pow2(k));
    ByteWeight(b, j, Pow2(k));
  }

  lemma ByteWeight(b: seq<nat>, j: nat, w: nat)
    requires |b| == 4 && j < 4
    ensures Value(b[3 - j := b[3 - j] + w]) == Value(b) + Pow2(8 * j) * w
  {
    assert Pow2(8) == 0x100;
    Pow2Add(8, 8);
    Pow2Add(16, 8);
    if j == 0 {
    } else if j == 1 {
    } else if j == 2 {
    } else {
    }
  }

  lemma FilledGrows(v: nat, i: nat)
    ensures Filled(v, i + 1) == WithBit(Filled(v, i), i)
  {
    var p, q := Pow2(i), v / Pow2(i);
    DivDiv(v, p, 2);
    assert Filled(v, i) == p * q + (p - 1);
    QuotientIsUnique(Filled(v, i), p, q, p - 1);
    var h := q / 2;
    assert Filled(v, i + 1) == h * (2 * p) + (2 * p - 1);
    if q % 2 == 1 {
      assert p * q == p * (2 * h + 1) == h * (2 * p) + p;
    } else {
      assert p * q == p * (2 * h) == h * (2 * p);
    }
  }

  method SetBit(b: array<nat>, i: nat)
    requires b.Length == 4 && i < 32
    modifies b
    ensures b[..] == old(b[..][3 - i / 8 := WithBit(b[3 - i / 8], i % 8)])
  {
    b[3 - i / 8] := WithBit(b[3 - i / 8], i % 8);
  }

  lemma StaysBytes(b: seq<nat>, j: nat, x: nat)
    requires FourBytes(b) && j < 4 && x < 0x100
    ensures FourBytes(b[j := x])
  {
  }

  /** In place, bit by bit, over the four bytes; the result is the last address of the prefix. */
  method LastAddress(p: Option<Prefix>, b: array<nat>) returns (r: Option<nat>)
    requires b.Length == 4 && FourBytes(b[..])
    requires p.Some? ==> p.value.Valid() && Value(b[..]) == p.value.addr
    modifies b
    ensures r == if p.None? then None else Some(p.value.Last())
  {
    if p.None? {
      return None;
    }
    var host := 32 - p.value.bits;
    var i := 0;
    while i < host
      invariant 0 <= i <= host
      invariant FourBytes(b[..]) && Value(b[..]) == Filled(p.value.addr, i)
    {
      ghost var before := b[..];
      ByteCarriesBit(before, i);
      FilledGrows(p.value.addr, i);
      StaysBytes(before, 3 - i / 8, WithBit(before[3 - i / 8], i % 8));
      SetBit(b, i);
      i := i + 1;
    }
    return Some(Value(b[..]));
  }
}
