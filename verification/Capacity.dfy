/** How many devices a pool holds, counted from the joint invariant. */
module Capacity {
  import opened Ipv4
  import opened Ipam
  import opened PeerStore
  import opened Control
  import opened Joint
  import opened Witnesses

  /** The hosts numbered below n. */
  ghost function HostsBelow(r: Range, n: nat): set<Ip4>
    requires n <= r.hi
  {
    if n <= r.lo + 1 then {} else HostsBelow(r, n - 1) + {FromVal(n - 1)}
  }

  lemma {:induction false} HostsBelowCount(r: Range, n: nat)
    requires r.lo < n <= r.hi
    ensures |HostsBelow(r, n)| == n - r.lo - 1
    ensures forall ip: Ip4 :: ip in HostsBelow(r, n) <==> r.lo < Val(ip) < n
  {
    if n > r.lo + 1 {
      HostsBelowCount(r, n - 1);
      forall ip: Ip4 ensures ip in HostsBelow(r, n) <==> r.lo < Val(ip) < n {
        if Val(ip) == n - 1 {
          ValInjective(ip, FromVal(n - 1));
        }
      }
    }
  }

  ghost function Hosts(r: Range): (h: set<Ip4>)
    ensures forall ip: Ip4 :: ip in h <==> Host(r, ip)
    ensures r.lo < r.hi ==> |h| == r.hi - r.lo - 1
  {
    if r.lo < r.hi then
      HostsBelowCount(r, r.hi);
      HostsBelow(r, r.hi)
    else {}
  }

  ghost function IpsOf(peers: map<string, Record>, ks: set<string>): set<Ip4>
    requires ks <= peers.Keys
  {
    set k <- ks :: peers[k].ip
  }

  lemma {:induction false} UniqueIpsCount(peers: map<string, Record>, ks: set<string>)
    requires ks <= peers.Keys
    requires forall k <- ks, k' <- ks | peers[k].ip == peers[k'].ip :: k == k'
    ensures |IpsOf(peers, ks)| == |ks|
  {
    if ks != {} {
      var k :| k in ks;
      UniqueIpsCount(peers, ks - {k});
      assert IpsOf(peers, ks) == IpsOf(peers, ks - {k}) + {peers[k].ip};
      assert peers[k].ip !in IpsOf(peers, ks - {k});
    }
  }

  /** Under the joint invariant no pool holds more devices than it has hosts beside the gateway's. */
  lemma EnrolledWithinHosts(cfg: Config, s: State)
    requires JointInv(cfg, s)
    ensures |s.peers| <= |Hosts(cfg.range) - {cfg.gateway}|
    ensures AllUsed(cfg.range, s.used) <==> |s.peers| == |Hosts(cfg.range) - {cfg.gateway}|
  {
    var room := Hosts(cfg.range) - {cfg.gateway};
    UniqueIpsCount(s.peers, s.peers.Keys);
    assert Ips(s.peers) == IpsOf(s.peers, s.peers.Keys);
    assert Ips(s.peers) <= room;
    SubsetSize(Ips(s.peers), room);
    if Ips(s.peers) == room {
      forall b: Ip4 | Host(cfg.range, b) ensures b in s.used {
        assert b == cfg.gateway || b in room;
      }
    } else {
      var b :| b in room && b !in Ips(s.peers);
      assert Host(cfg.range, b) && b !in s.used;
    }
  }

  lemma SubsetSize<T>(a: set<T>, b: set<T>)
    requires a <= b
    ensures |a| <= |b| && (|a| == |b| <==> a == b)
  {
    assert b == a + (b - a);
  }

  lemma HostsOfRange(r: Range, gateway: Ip4, size: nat)
    requires 1 <= size && r.hi == r.lo + size - 1
    requires 4 <= size ==> Val(gateway) == r.lo + 1
    ensures 4 <= size ==> |Hosts(r) - {gateway}| == size - 3
    ensures size <= 2 ==> Hosts(r) == {}
  {
    if 4 <= size {
      assert gateway in Hosts(r);
    } else if size <= 2 {
      assert forall ip: Ip4 :: !Host(r, ip);
    }
  }

  lemma HostsOfPool(cfg: Config, pool: Pool)
    requires ForPool(cfg, pool)
    ensures pool.prefix <= 30 ==> |Hosts(cfg.range) - {cfg.gateway}| == Size(pool.prefix) - 3
    ensures pool.prefix > 30 ==> Hosts(cfg.range) == {}
  {
    PoolBounds(pool);
    PrefixSize(pool.prefix);
    GatewayFollows(Lo(pool), Hi(pool), ServerIp(pool));
    HostsOfRange(cfg.range, cfg.gateway, Size(pool.prefix));
  }

  lemma GatewayFollows(lo: nat, hi: nat, gateway: Ip4)
    requires lo <= hi < SPACE && Val(gateway) == (lo + 1) % SPACE
    ensures lo < hi ==> Val(gateway) == lo + 1
  {
    Successor(lo, Val(gateway), hi);
  }

  lemma PrefixSize(p: PrefixLen)
    ensures p <= 30 ==> 4 <= Size(p)
    ensures p > 30 ==> Size(p) <= 2
  {
    if p <= 30 {
      assert Pow2(32 - p) == 2 * Pow2(31 - p) && Pow2(31 - p) == 2 * Pow2(30 - p);
    }
  }

  lemma ExhaustedIsAllUsed(cfg: Config, s: State, e: Event)
    requires e.Enroll? && e.key !in s.peers && Refusal(cfg, s, e).None?
    ensures Step(cfg, s, e).1 == PoolExhausted <==> AllUsed(cfg.range, s.used)
  {
  }

  lemma ExhaustedAt(cfg: Config, pool: Pool, s: State, e: Event)
    requires ForPool(cfg, pool) && JointInv(cfg, s)
    requires e.Enroll? && e.key !in s.peers && Refusal(cfg, s, e).None?
    ensures Step(cfg, s, e).1 == PoolExhausted <==> pool.prefix > 30 || |s.peers| == Size(pool.prefix) - 3
  {
    HostsOfPool(cfg, pool);
    EnrolledWithinHosts(cfg, s);
    ExhaustedIsAllUsed(cfg, s, e);
  }

  lemma UsedWithinHosts(cfg: Config, pool: Pool, s: State)
    requires ForPool(cfg, pool) && Safe(cfg, s) && pool.prefix <= 30
    ensures |s.used| <= Size(pool.prefix) - 2
    ensures AllUsed(cfg.range, s.used) <==> |s.used| == Size(pool.prefix) - 2
  {
    var room := Hosts(cfg.range) - {cfg.gateway};
    var taken := s.used - {cfg.gateway};
    HostsOfPool(cfg, pool);
    forall ip <- taken ensures ip in room {
      var k :| k in s.peers && s.peers[k].ip == ip;
    }
    SubsetSize(taken, room);
    assert s.used == taken + {cfg.gateway};
    AllUsedIff(cfg, s.used, taken, room);
  }

  lemma AllUsedIff(cfg: Config, used: set<Ip4>, taken: set<Ip4>, room: set<Ip4>)
    requires room == Hosts(cfg.range) - {cfg.gateway} && taken <= room && used == taken + {cfg.gateway}
    ensures AllUsed(cfg.range, used) <==> taken == room
  {
    if AllUsed(cfg.range, used) {
      assert forall ip <- room :: Host(cfg.range, ip);
    }
  }

  /**
    After any run whatever, a first enrollment that passes its checks is refused as
    pool-exhausted exactly when the pool counts 2^(32-p) - 2 addresses used, the gateway's
    among them, and always for prefixes 31 and 32, where nobody is ever enrolled.
   */
  lemma ExhaustedInAnyRun(cfg: Config, pool: Pool, s: State, evs: seq<Event>, e: Event)
    requires ForPool(cfg, pool) && Init(cfg, s)
    requires e.Enroll? && e.key !in Run(cfg, s, evs).peers && Refusal(cfg, Run(cfg, s, evs), e).None?
    ensures var end := Run(cfg, s, evs);
            && (Step(cfg, end, e).1 == PoolExhausted <==> pool.prefix > 30 || |end.used| == Size(pool.prefix) - 2)
            && (pool.prefix <= 30 ==> |end.used| <= Size(pool.prefix) - 2)
            && (pool.prefix > 30 ==> end.peers == map[])
  {
    var end := Run(cfg, s, evs);
    RunKeepsSafe(cfg, s, evs);
    ExhaustedIsAllUsed(cfg, end, e);
    if pool.prefix <= 30 {
      UsedWithinHosts(cfg, pool, end);
    } else {
      HostsOfPool(cfg, pool);
      assert forall ip: Ip4 :: ip !in Hosts(cfg.range);
    }
  }

  /**
    The devices at addresses that no failed re-enrollment gave back are never more than
    2^(32-p) - 3; those at the others may be any number.
   */
  lemma UnhurtWithinHosts(cfg: Config, pool: Pool, s: State, evs: seq<Event>)
    requires ForPool(cfg, pool) && Init(cfg, s) && pool.prefix <= 30
    ensures var end := Run(cfg, s, evs);
            |set k <- end.peers | end.peers[k].ip !in Hurt(cfg, s, evs)| <= Size(pool.prefix) - 3
  {
    var end := Run(cfg, s, evs);
    var ks := set k <- end.peers | end.peers[k].ip !in Hurt(cfg, s, evs);
    RunKeepsSafe(cfg, s, evs);
    RunKeepsSound(cfg, s, evs);
    HostsOfPool(cfg, pool);
    UniqueIpsCount(end.peers, ks);
    SubsetSize(IpsOf(end.peers, ks), Hosts(cfg.range) - {cfg.gateway});
  }

  /** And any number it is, on every pool of prefix 30 or less: as many devices as there are keys. */
  lemma BoundFails(cfg: Config, pool: Pool, ks: seq<string>)
    requires ForPool(cfg, pool) && pool.prefix <= 30 && Usable(cfg, ks)
    ensures Init(cfg, Bare(cfg)) && |Run(cfg, Bare(cfg), Crowding(ks, |ks|)).peers| == |ks|
  {
    HostsOfPool(cfg, pool);
    BareIsInit(cfg);
    RoomOfPool(cfg, pool);
    AnyNumberOnOneAddress(cfg, ks);
  }

  /** There is room for a device exactly up to prefix 30. */
  lemma RoomOfPool(cfg: Config, pool: Pool)
    requires ForPool(cfg, pool)
    ensures Room(cfg) <==> pool.prefix <= 30
  {
    HostsOfPool(cfg, pool);
    PrefixSize(pool.prefix);
    if pool.prefix <= 30 {
      var ip :| ip in Hosts(cfg.range) - {cfg.gateway};
      assert Host(cfg.range, ip) && ip != cfg.gateway;
    }
  }

  /**
    After any run without a failed re-enrollment, a first enrollment that passes its checks
    is refused as pool-exhausted exactly when 2^(32-p) - 3 devices are enrolled, and always
    for prefixes 31 and 32; more are never enrolled.
   */
  lemma ExhaustedIff(cfg: Config, pool: Pool, s: State, evs: seq<Event>, e: Event)
    requires ForPool(cfg, pool) && Init(cfg, s) && NoFailedReenroll(cfg, s, evs)
    requires e.Enroll? && e.key !in Run(cfg, s, evs).peers && Refusal(cfg, Run(cfg, s, evs), e).None?
    ensures var end := Run(cfg, s, evs);
            && (Step(cfg, end, e).1 == PoolExhausted <==> pool.prefix > 30 || |end.peers| == Size(pool.prefix) - 3)
            && (pool.prefix <= 30 ==> |end.peers| <= Size(pool.prefix) - 3)
            && (pool.prefix > 30 ==> end.peers == map[])
  {
    RunKeepsJoint(cfg, s, evs);
    ExhaustedAt(cfg, pool, Run(cfg, s, evs), e);
    EnrolledWithinHosts(cfg, Run(cfg, s, evs));
    HostsOfPool(cfg, pool);
  }
}
