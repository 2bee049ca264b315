/**
  IPv4 addresses as the four bytes Go's `net.IP` holds, CIDR masks, and the byte
  operations of the address pool, each tied to its meaning on 32-bit numbers.
 */
module Ipv4 {

  type Byte = n: nat | n < 256

  type Ip4 = s: seq<Byte> | |s| == 4 witness [0, 0, 0, 0]

  type PrefixLen = p: nat | p <= 32

  const SPACE: nat := 0x1_0000_0000

  /** An address pool as configured: any address of it, and its prefix length. */
  datatype Pool = Pool(base: Ip4, prefix: PrefixLen)

  /** The address as a big-endian 32-bit number. */
  function Val(ip: Ip4): (n: nat)
    ensures n < SPACE
  {
    0x100_0000 * (ip[0] as int) + 0x1_0000 * (ip[1] as int) + 0x100 * (ip[2] as int) + (ip[3] as int)
  }

  function FromVal(n: nat): (ip: Ip4)
    requires n < SPACE
    ensures Val(ip) == n
  {
    var h := n / 0x100;
    var g := h / 0x100;
    [g / 0x100, g % 0x100, h % 0x100, n % 0x100]
  }

  lemma ValInjective(a: Ip4, b: Ip4)
    requires Val(a) == Val(b)
    ensures a == b
  {
    assert a[0] == b[0] && a[1] == b[1] && a[2] == b[2] && a[3] == b[3];
  }

  lemma FromValVal(ip: Ip4)
    ensures FromVal(Val(ip)) == ip
  {
    ValInjective(FromVal(Val(ip)), ip);
  }

  lemma Numbered(ip: Ip4, n: nat)
    requires n < SPACE && Val(ip) == n
    ensures ip == FromVal(n)
  {
    FromValVal(ip);
  }

  function Pow2(n: nat): (r: nat)
    ensures 1 <= r
  {
    if n == 0 then 1 else 2 * Pow2(n - 1)
  }

  /** The number of addresses of a prefix, network and broadcast included. */
  function Size(p: PrefixLen): (r: nat)
    ensures 1 <= r
  {
    Pow2(32 - p)
  }

  // ---- masks, as net.CIDRMask builds them ----

  /** Bitwise AND and OR of the low n bits, and the complement of a byte. */
  function AndBits(a: nat, b: nat, n: nat): nat {
    if n == 0 then 0 else 2 * AndBits(a / 2, b / 2, n - 1) + (if a % 2 == 1 && b % 2 == 1 then 1 else 0)
  }

  function OrBits(a: nat, b: nat, n: nat): nat {
    if n == 0 then 0 else 2 * OrBits(a / 2, b / 2, n - 1) + (if a % 2 == 1 || b % 2 == 1 then 1 else 0)
  }

  function And(a: Byte, b: Byte): Byte {
    BitsBound(a, b, 8);
    PowersUpTo8();
    AndBits(a, b, 8)
  }

  function Or(a: Byte, b: Byte): Byte {
    BitsBound(a, b, 8);
    PowersUpTo8();
    OrBits(a, b, 8)
  }

  lemma {:induction false} BitsBound(a: nat, b: nat, n: nat)
    ensures AndBits(a, b, n) < Pow2(n) && OrBits(a, b, n) < Pow2(n)
  {
    if n > 0 {
      BitsBound(a / 2, b / 2, n - 1);
    }
  }

  function Not(a: Byte): Byte {
    255 - a
  }

  function MaskByte(ones: nat): Byte
    requires ones <= 8
  {
    PowersUpTo8();
    Not(Pow2(8 - ones) - 1)
  }

  function OnesIn(p: PrefixLen, i: nat): (k: nat)
    requires i < 4
    ensures k <= 8
  {
    if 8 * (i + 1) <= p then 8 else if p <= 8 * i then 0 else p - 8 * i
  }

  function Mask(p: PrefixLen): Ip4 {
    seq(4, i requires 0 <= i < 4 => MaskByte(OnesIn(p, i)))
  }

  /** The pool's network address, `IPNet.IP`: the configured address under the mask. */
  function Network(pool: Pool): Ip4 {
    seq(4, i requires 0 <= i < 4 => And(pool.base[i], Mask(pool.prefix)[i]))
  }

  /** Every host bit set: what `isBroadcast` compares with. */
  function Broadcast(pool: Pool): Ip4 {
    seq(4, i requires 0 <= i < 4 => Or(Network(pool)[i], Not(Mask(pool.prefix)[i])))
  }

  /** `IPNet.Contains`: the same bits under the mask. */
  predicate Contains(pool: Pool, ip: Ip4) {
    forall i: nat | i < 4 :: SameUnderMask(pool, i, ip[i])
  }

  predicate SameUnderMask(pool: Pool, i: nat, c: Byte)
    requires i < 4
  {
    And(Network(pool)[i], Mask(pool.prefix)[i]) == And(c, Mask(pool.prefix)[i])
  }

  /** The numbers of the first and the last address of the pool. */
  function Lo(pool: Pool): nat {
    Val(Network(pool))
  }

  function Hi(pool: Pool): nat {
    Lo(pool) + Size(pool.prefix) - 1
  }

  // ---- one byte under a mask of k ones ----

  /** a with its low j bits cleared. */
  function High(a: nat, j: nat): (h: nat)
    ensures h <= a < h + Pow2(j)
  {
    if j == 0 then a else 2 * High(a / 2, j - 1)
  }

  lemma {:induction false} SameHigh(a: nat, c: nat, j: nat)
    ensures High(a, j) == High(c, j) <==> High(a, j) <= c < High(a, j) + Pow2(j)
  {
    if j > 0 {
      SameHigh(a / 2, c / 2, j - 1);
    }
  }

  lemma {:induction false} HighHigh(a: nat, j: nat)
    ensures High(High(a, j), j) == High(a, j)
  {
    if j > 0 {
      var h := High(a / 2, j - 1);
      HighHigh(a / 2, j - 1);
      assert High(a, j) == 2 * h && (2 * h) / 2 == h;
    }
  }

  lemma {:induction false} AndHigh(a: nat, n: nat, j: nat)
    requires j <= n && a < Pow2(n)
    ensures Pow2(j) <= Pow2(n)
    ensures AndBits(a, Pow2(n) - Pow2(j), n) == High(a, j)
  {
    if n > 0 {
      var i := if j == 0 then 0 else j - 1;
      AndHigh(a / 2, n - 1, i);
      assert (Pow2(n) - Pow2(j)) / 2 == Pow2(n - 1) - Pow2(i);
    }
  }

  /** 2^j - 1 in binary: half of it is 2^(j-1) - 1, and it is odd. */
  lemma HalfOfOnes(j: nat)
    ensures j == 0 ==> (Pow2(j) - 1) / 2 == 0 && (Pow2(j) - 1) % 2 == 0
    ensures j > 0 ==> (Pow2(j) - 1) / 2 == Pow2(j - 1) - 1 && (Pow2(j) - 1) % 2 == 1
  {
  }

  lemma {:induction false} OrLow(a: nat, n: nat, j: nat)
    requires j <= n && a < Pow2(n)
    ensures OrBits(a, Pow2(j) - 1, n) == High(a, j) + Pow2(j) - 1
  {
    HalfOfOnes(j);
    if n > 0 {
      OrLow(a / 2, n - 1, if j == 0 then 0 else j - 1);
    }
  }

  lemma PowersUpTo8()
    ensures Pow2(0) == 1 && Pow2(1) == 2 && Pow2(2) == 4 && Pow2(3) == 8 && Pow2(4) == 16
    ensures Pow2(5) == 32 && Pow2(6) == 64 && Pow2(7) == 128 && Pow2(8) == 256
  {
    assert Pow2(4) == 16;
    assert Pow2(6) == 64;
  }

  /** The mask of k ones is 2^8 - 2^(8-k), its complement 2^(8-k) - 1. */
  lemma MaskNumbers(k: nat)
    requires k <= 8
    ensures Pow2(8) == 256
    ensures MaskByte(k) == Pow2(8) - Pow2(8 - k)
    ensures Not(MaskByte(k)) == Pow2(8 - k) - 1
  {
    PowersUpTo8();
  }

  lemma AndByte(b: Byte, c: Byte, j: nat)
    requires j <= 8 && c == Pow2(8) - Pow2(j)
    ensures And(b, c) == High(b, j)
  {
    PowersUpTo8();
    AndHigh(b, 8, j);
  }

  lemma AndMask(b: Byte, k: nat)
    requires k <= 8
    ensures And(b, MaskByte(k)) == High(b, 8 - k)
  {
    MaskNumbers(k);
    AndByte(b, MaskByte(k), 8 - k);
  }

  lemma OrByte(b: Byte, c: Byte, j: nat)
    requires j <= 8 && c == Pow2(j) - 1
    ensures Or(b, c) == High(b, j) + Pow2(j) - 1
  {
    PowersUpTo8();
    OrLow(b, 8, j);
  }

  lemma OrHostMask(b: Byte, k: nat)
    requires k <= 8
    ensures Or(b, Not(MaskByte(k))) == High(b, 8 - k) + Pow2(8 - k) - 1
  {
    MaskNumbers(k);
    OrByte(b, Not(MaskByte(k)), 8 - k);
  }

  // ---- the whole address ----

  /** How many values a byte can take once its first k bits are fixed. */
  function Span(k: nat): (q: nat)
    requires k <= 8
    ensures 1 <= q <= 256 && q == Pow2(8 - k)
  {
    PowersUpTo8();
    if k == 0 then 256 else if k == 1 then 128 else if k == 2 then 64 else if k == 3 then 32 else if k == 4 then 16
    else if k == 5 then 8 else if k == 6 then 4 else if k == 7 then 2 else 1
  }

  /** How many values byte i of an address of the pool can take. */
  function Free(p: PrefixLen, i: nat): (q: nat)
    requires i < 4
    ensures 1 <= q <= 256
  {
    Span(OnesIn(p, i))
  }

  lemma PoolByte(pool: Pool, i: nat, c: Byte)
    requires i < 4
    ensures var n, q := Network(pool)[i], Free(pool.prefix, i);
            && n as int + q <= 256
            && Broadcast(pool)[i] == n as int + q - 1
            && (SameUnderMask(pool, i, c) <==> n <= c < n as int + q)
            && SameUnderMask(pool, i, pool.base[i])
  {
    var k := OnesIn(pool.prefix, i);
    var b := pool.base[i];
    AndMask(b, k);
    HighHigh(b, 8 - k);
    AndMask(High(b, 8 - k), k);
    AndMask(c, k);
    OrHostMask(High(b, 8 - k), k);
    SameHigh(b, c, 8 - k);
  }

  /** A prefix frees whole bytes from the right, part of one, and fixes those on its left. */
  lemma FreeBytes(p: PrefixLen)
    ensures Free(p, 0) > 1 ==> Free(p, 1) == 256
    ensures Free(p, 1) > 1 ==> Free(p, 2) == 256
    ensures Free(p, 2) > 1 ==> Free(p, 3) == 256
  {
  }

  lemma FreeBytesSize(p: PrefixLen)
    ensures 0x100_0000 * (Free(p, 0) - 1) + 0x1_0000 * (Free(p, 1) - 1) + 0x100 * (Free(p, 2) - 1) + Free(p, 3) == Size(p)
  {
    if p <= 24 {
      Pow2Plus8(24 - p);
      if p <= 16 {
        Pow2Plus8(16 - p);
        if p <= 8 {
          Pow2Plus8(8 - p);
        }
      }
    }
  }

  lemma Pow2Plus8(n: nat)
    ensures Pow2(n + 8) == 256 * Pow2(n)
  {
    assert Pow2(n + 2) == 4 * Pow2(n);
    assert Pow2(n + 4) == 4 * Pow2(n + 2);
    assert Pow2(n + 6) == 4 * Pow2(n + 4);
  }

  /** The OR-mask broadcast is the network address plus 2^(32-p) - 1. */
  lemma BroadcastIsLast(pool: Pool)
    ensures Val(Broadcast(pool)) == Hi(pool)
  {
    PoolByte(pool, 0, 0);
    PoolByte(pool, 1, 0);
    PoolByte(pool, 2, 0);
    PoolByte(pool, 3, 0);
    FreeBytesSize(pool.prefix);
  }

  predicate InSpan(n: Byte, q: nat, c: Byte) {
    n <= c < n as int + q
  }

  predicate InBox(n: Ip4, p: PrefixLen, ip: Ip4) {
    forall i: nat | i < 4 :: InSpan(n[i], Free(p, i), ip[i])
  }

  lemma ContainsIsBox(pool: Pool, ip: Ip4)
    ensures Contains(pool, ip) <==> InBox(Network(pool), pool.prefix, ip)
    ensures forall i: nat | i < 4 :: Network(pool)[i] as int + Free(pool.prefix, i) <= 256
  {
    forall i: nat | i < 4
      ensures SameUnderMask(pool, i, ip[i]) <==> InSpan(Network(pool)[i], Free(pool.prefix, i), ip[i])
      ensures Network(pool)[i] as int + Free(pool.prefix, i) <= 256
    {
      PoolByte(pool, i, ip[i]);
    }
  }

  lemma BoxIsInterval(n: Ip4, p: PrefixLen, ip: Ip4)
    requires forall i: nat | i < 4 :: n[i] as int + Free(p, i) <= 256
    ensures InBox(n, p, ip) <==> Val(n) <= Val(ip) < Val(n) + Size(p)
  {
    FreeBytes(p);
    FreeBytesSize(p);
    BytesInBox(n, ip, Free(p, 0), Free(p, 1), Free(p, 2), Free(p, 3));
  }

  /** A number in base 256 is in a box of leading part and last digit exactly if it is in the interval. */
  lemma LastDigit(n: nat, d: nat, c: nat, e: nat, q: nat, r: nat)
    requires d + r <= 256 && e < 256 && 1 <= q && 1 <= r && (q > 1 ==> r == 256)
    ensures n <= c < n + q && d <= e < d + r <==> 256 * n + d <= 256 * c + e < 256 * n + d + 256 * (q - 1) + r
  {
    if q > 1 {
      assert d == 0;
    }
  }

  lemma BytesInBox(n: Ip4, c: Ip4, q0: nat, q1: nat, q2: nat, q3: nat)
    requires 1 <= q0 && 1 <= q1 && 1 <= q2 && 1 <= q3
    requires (q0 > 1 ==> q1 == 256) && (q1 > 1 ==> q2 == 256) && (q2 > 1 ==> q3 == 256)
    requires n[0] as int + q0 <= 256 && n[1] as int + q1 <= 256 && n[2] as int + q2 <= 256 && n[3] as int + q3 <= 256
    ensures (InSpan(n[0], q0, c[0]) && InSpan(n[1], q1, c[1]) && InSpan(n[2], q2, c[2]) && InSpan(n[3], q3, c[3]))
       <==> Val(n) <= Val(c) < Val(n) + 0x100_0000 * (q0 - 1) + 0x1_0000 * (q1 - 1) + 0x100 * (q2 - 1) + q3
  {
    var n1, c1, s1 := 256 * n[0] as int + n[1] as int, 256 * c[0] as int + c[1] as int, 256 * (q0 - 1) + q1;
    LastDigit(n[0], n[1], c[0], c[1], q0, q1);
    LastDigit(n1, n[2], c1, c[2], s1, q2);
    LastDigit(256 * n1 + n[2] as int, n[3], 256 * c1 + c[2] as int, c[3], 256 * (s1 - 1) + q2, q3);
  }

  /** Matching under the mask is lying between the network and the broadcast address. */
  lemma ContainsIsInterval(pool: Pool, ip: Ip4)
    ensures Contains(pool, ip) <==> Lo(pool) <= Val(ip) <= Hi(pool)
  {
    ContainsIsBox(pool, ip);
    BoxIsInterval(Network(pool), pool.prefix, ip);
  }

  lemma PoolBounds(pool: Pool)
    ensures Lo(pool) <= Val(pool.base) <= Hi(pool) < SPACE
  {
    BroadcastIsLast(pool);
    forall i: nat | i < 4
      ensures SameUnderMask(pool, i, pool.base[i])
    {
      PoolByte(pool, i, 0);
    }
    ContainsIsInterval(pool, pool.base);
  }

  // ---- the byte loops ----

  lemma CarryStopsAt(ip: Ip4, res: Ip4, i: int)
    requires -1 <= i <= 3
    requires forall j | 0 <= j < i :: res[j] == ip[j]
    requires 0 <= i ==> res[i] == ip[i] as int + 1
    requires forall j | i < j < 4 :: res[j] == 0 && ip[j] == 255
    ensures Val(res) == (Val(ip) + 1) % SPACE
  {
    if i == 0 {} else if i == 1 {} else if i == 2 {} else if i == 3 {} else {}
  }

  /** `next`: increment in place from the last byte, carrying while a byte wraps to zero. */
  method Next(ip: Ip4) returns (res: Ip4)
    ensures Val(res) == (Val(ip) + 1) % SPACE
  {
    var out := new Byte[4](i requires 0 <= i < 4 => ip[i]);
    var i := 3;
    while i >= 0
      invariant -1 <= i <= 3
      invariant forall j | 0 <= j <= i :: out[j] == ip[j]
      invariant forall j | i < j < 4 :: out[j] == 0 && ip[j] == 255
    {
      out[i] := (out[i] as int + 1) % 256;
      if out[i] != 0 {
        break;
      }
      i := i - 1;
    }
    res := out[..];
    CarryStopsAt(ip, res, i);
  }

  /** `isBroadcast`: OR the inverted mask into a copy of the network address and compare. */
  method IsBroadcast(ip: Ip4, pool: Pool) returns (yes: bool)
    ensures yes <==> Val(ip) == Hi(pool)
  {
    var n, mask := Network(pool), Mask(pool.prefix);
    var bc := new Byte[4](i requires 0 <= i < 4 => n[i]);
    for i := 0 to 4
      invariant forall j | 0 <= j < i :: bc[j] == Broadcast(pool)[j]
      invariant forall j | i <= j < 4 :: bc[j] == n[j]
    {
      bc[i] := Or(bc[i], Not(mask[i]));
    }
    assert bc[..] == Broadcast(pool);
    BroadcastIsLast(pool);
    yes := ip == bc[..];
    if Val(ip) == Hi(pool) {
      ValInjective(ip, Broadcast(pool));
    }
  }
}
