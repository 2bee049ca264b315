/**
  The address pool: a linear scan over the bytes of an address, proved to hand out the
  lowest free host, and what any sequence of calls to it guarantees.
 */
module Ipam {
  import opened Wrappers
  import opened Ipv4

  /** The numbers of a pool's network and broadcast addresses. */
  datatype Bounds = Range(lo: nat, hi: nat)

  type Range = r: Bounds | r.lo <= r.hi < SPACE witness Range(0, 0)

  function RangeOf(pool: Pool): Range {
    PoolBounds(pool);
    Range(Lo(pool), Hi(pool))
  }

  /** The addresses a device may be given: strictly between network and broadcast. */
  predicate Host(r: Range, ip: Ip4) {
    r.lo < Val(ip) < r.hi
  }

  /** The gateway's own address: the one after the network address, wrapping at 2^32. */
  function ServerIp(pool: Pool): Ip4 {
    FromVal((Lo(pool) + 1) % SPACE)
  }

  lemma IsServerIp(ip: Ip4, n: nat, pool: Pool)
    requires n < SPACE && Val(ip) == n && n == (Lo(pool) + 1) % SPACE
    ensures ip == ServerIp(pool)
  {
    Numbered(ip, n);
  }

  ghost predicate IsLowestFree(r: Range, used: set<Ip4>, ip: Ip4) {
    && Host(r, ip)
    && ip !in used
    && forall b: Ip4 | Host(r, b) && Val(b) < Val(ip) :: b in used
  }

  ghost predicate AllUsed(r: Range, used: set<Ip4>) {
    forall b: Ip4 | Host(r, b) :: b in used
  }

  /** The lowest free host numbered n or more, if there is one. */
  function FreeFrom(r: Range, used: set<Ip4>, n: nat): (a: Option<Ip4>)
    requires r.lo < n
    ensures a.Some? ==> Host(r, a.value) && a.value !in used && n <= Val(a.value)
    ensures a.Some? ==> forall b: Ip4 | n <= Val(b) < Val(a.value) :: b in used
    ensures a.None? ==> forall b: Ip4 | n <= Val(b) < r.hi :: b in used
    decreases r.hi - n
  {
    if r.hi <= n then None
    else if FromVal(n) !in used then Some(FromVal(n))
    else
      assert forall b: Ip4 | Val(b) == n :: b in used by {
        forall b: Ip4 | Val(b) == n ensures b in used { ValInjective(b, FromVal(n)); }
      }
      FreeFrom(r, used, n + 1)
  }

  function LowestFree(r: Range, used: set<Ip4>): (a: Option<Ip4>)
    ensures a.Some? ==> IsLowestFree(r, used, a.value)
    ensures a.None? <==> AllUsed(r, used)
  {
    FreeFrom(r, used, r.lo + 1)
  }

  /** What the scan of `Allocate` keeps: the lowest free host is still ahead of it. */
  ghost predicate Scanning(r: Range, used: set<Ip4>, ip: Ip4, inside: bool) {
    && (inside ==> r.lo < Val(ip) <= r.hi)
    && LowestFree(r, used) == if inside then FreeFrom(r, used, Val(ip)) else None
  }

  lemma ScanStarts(r: Range, used: set<Ip4>, ip: Ip4, inside: bool)
    requires Val(ip) == (r.lo + 1) % SPACE
    requires inside <==> r.lo <= Val(ip) <= r.hi
    ensures Scanning(r, used, ip, inside)
  {
    Successor(r.lo, Val(ip), r.hi);
  }

  lemma Successor(n: nat, s: nat, hi: nat)
    requires n <= hi < SPACE && s == (n + 1) % SPACE
    ensures n <= s <= hi <==> n < hi
    ensures n < hi ==> s == n + 1
  {
  }

  lemma ScanLooks(r: Range, used: set<Ip4>, ip: Ip4)
    requires Scanning(r, used, ip, true) && Val(ip) != r.hi
    ensures ip !in used ==> LowestFree(r, used) == Some(ip)
  {
    FromValVal(ip);
  }

  lemma ScanMoves(r: Range, used: set<Ip4>, ip: Ip4, ip': Ip4, inside: bool)
    requires Scanning(r, used, ip, true) && Val(ip) != r.hi && ip in used
    requires Val(ip') == (Val(ip) + 1) % SPACE
    requires inside <==> r.lo <= Val(ip') <= r.hi
    ensures Scanning(r, used, ip', inside)
    ensures inside && Val(ip') == Val(ip) + 1
  {
    FromValVal(ip);
    Successor(Val(ip), Val(ip'), r.hi);
  }

  class Allocator {
    const pool: Pool
    const serverIp: Ip4
    var used: set<Ip4>

    constructor (pool: Pool)
      ensures this.pool == pool
      ensures serverIp == ServerIp(pool) && Val(serverIp) == (Lo(pool) + 1) % SPACE
      ensures used == {serverIp}
    {
      this.pool := pool;
      var first := Next(Network(pool));
      IsServerIp(first, Val(first), pool);
      serverIp := first;
      used := {first};
    }

    method FirstHost() returns (ip: Ip4)
      ensures Val(ip) == (RangeOf(pool).lo + 1) % SPACE
    {
      ip := Next(Network(pool));
    }

    method InPool(ip: Ip4) returns (yes: bool)
      ensures yes <==> RangeOf(pool).lo <= Val(ip) <= RangeOf(pool).hi
    {
      ContainsIsInterval(pool, ip);
      yes := Contains(pool, ip);
    }

    /** Scans from the first host until the pool or its broadcast address ends it. */
    method Allocate() returns (r: Option<Ip4>)
      modifies this`used
      ensures r == LowestFree(RangeOf(pool), old(used))
      ensures used == if r.Some? then old(used) + {r.value} else old(used)
    {
      ghost var range := RangeOf(pool);
      r := None;
      var ip := FirstHost();
      var inside := InPool(ip);
      ScanStarts(range, used, ip, inside);
      while inside
        invariant used == old(used) && r == None
        invariant Scanning(range, used, ip, inside)
        decreases if inside then range.hi - Val(ip) + 1 else 0
      {
        var last := IsBroadcast(ip, pool);
        if last {
          break;
        }
        ScanLooks(range, used, ip);
        if ip !in used {
          used := used + {ip};
          return Some(ip);
        }
        var was := ip;
        ip := Next(ip);
        inside := InPool(ip);
        ScanMoves(range, used, was, ip, inside);
      }
    }

    method Reserve(ip: Ip4) returns (ok: bool)
      modifies this`used
      ensures ok <==> Granted(RangeOf(pool), old(used), ReserveCall(ip)).Some?
      ensures used == if ok then old(used) + {ip} else old(used)
    {
      var inside := InPool(ip);
      if !inside {
        return false;
      }
      if ip in used {
        return false;
      }
      used := used + {ip};
      return true;
    }

    method Release(ip: Ip4)
      modifies this`used
      ensures used == old(used) - {ip}
    {
      used := used - {ip};
    }
  }

  // ---- sequences of calls; the allocator's mutex makes each call one step ----

  datatype Call = AllocateCall | ReserveCall(ip: Ip4) | ReleaseCall(ip: Ip4)

  /** The address a call hands to its caller. */
  function Granted(r: Range, used: set<Ip4>, c: Call): Option<Ip4> {
    match c
    case AllocateCall => LowestFree(r, used)
    case ReserveCall(ip) => if r.lo <= Val(ip) <= r.hi && ip !in used then Some(ip) else None
    case ReleaseCall(_) => None
  }

  function Apply(r: Range, used: set<Ip4>, c: Call): set<Ip4> {
    if c.ReleaseCall? then used - {c.ip}
    else match Granted(r, used, c)
      case Some(ip) => used + {ip}
      case None => used
  }

  function After(r: Range, used: set<Ip4>, calls: seq<Call>): set<Ip4> {
    if calls == [] then used
    else Apply(r, After(r, used, calls[..|calls| - 1]), calls[|calls| - 1])
  }

  /** An address stays used until some call releases it. */
  lemma {:induction false} UsedUntilReleased(r: Range, used: set<Ip4>, calls: seq<Call>, i: nat, j: nat, ip: Ip4)
    requires i <= j <= |calls|
    requires ip in After(r, used, calls[..i])
    requires ip !in After(r, used, calls[..j])
    ensures exists k :: i <= k < j && calls[k] == ReleaseCall(ip)
  {
    if i < j {
      assert calls[..j][..j - 1] == calls[..j - 1];
      if calls[j - 1] != ReleaseCall(ip) {
        UsedUntilReleased(r, used, calls, i, j - 1, ip);
      }
    }
  }

  /** Between two grants of one address, by whatever callers, it was released. */
  lemma GrantsAreExclusive(r: Range, used: set<Ip4>, calls: seq<Call>, i: nat, j: nat, ip: Ip4)
    requires i < j < |calls|
    requires Granted(r, After(r, used, calls[..i]), calls[i]) == Some(ip)
    requires Granted(r, After(r, used, calls[..j]), calls[j]) == Some(ip)
    ensures exists k :: i < k < j && calls[k] == ReleaseCall(ip)
  {
    assert calls[..i + 1][..i] == calls[..i];
    assert ip in After(r, used, calls[..i + 1]);
    UsedUntilReleased(r, used, calls, i + 1, j, ip);
  }

  /** An address used from the start, as the gateway's is, is granted only after it was released. */
  lemma InitiallyUsedKept(r: Range, gateway: Ip4, calls: seq<Call>, j: nat)
    requires j < |calls|
    requires Granted(r, After(r, {gateway}, calls[..j]), calls[j]) == Some(gateway)
    ensures exists k :: 0 <= k < j && calls[k] == ReleaseCall(gateway)
  {
    assert calls[..0] == [];
    UsedUntilReleased(r, {gateway}, calls, 0, j, gateway);
  }
}
